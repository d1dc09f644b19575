# Lunch poll: vote ledger and daily window

This project models the logic of a lunch-poll mini-app. Colleagues answer Yes or No to
"lunch today?". Votes are accepted only between 08:30 and 10:30, both minutes included.
Each colleague may change their vote once. The results view counts the answers and lists
who is going.

- `PollWindow`: the window check, on a clock reading made of local hours, minutes and
  epoch milliseconds.
- `Ledger`: the ledger as a sequence of `VoteRecord`s. It holds the lookup of the current
  user's record, the linear search `findIndex` as a loop, and the updater the vote handler
  gives to the state setter (`CastOrRevise`). The gate in front of the updater is
  `HandleVoteStep`. `Replay` runs a series of votes. The invariant they keep is
  `WellFormed`: ids are unique and each `changesMade` is at most 1.
- `App`: the screen's state as a class `PollSession`, with fields for the clock, the
  acting user and the ledger. `HandleVote` is the imperative handler: it searches, then
  overwrites one slot or appends. It is proved equal to `HandleVoteStep` and to keep the
  invariant.
- `VotingCard`: `CanChange` and the set of options the card's buttons would submit. It
  is proved to agree with the updater's limit check.
- `ResultsView`: the Yes/No counts, the attendee list and the empty-ledger branch.

The handler returns only the new ledger and reports no accepted or rejected outcome.
The attendee list holds whole Yes records. The handler reads the session's clock instead
of taking the time as an argument.

## Model

| member | source | states |
|---|---|---|
| Types.Opposite | components/VotingCard.tsx:86 | The "switch" target differs from the current option. It is No exactly when the current option is Yes. |
| PollWindow.TotalMinutes | App.tsx:59-61 | Minutes since midnight are below 1440, and hours and minutes can be recovered from them by division and remainder by 60. |
| PollWindow.IsTimeInRange | App.tsx:58-66 | Open exactly from 08:30 through 10:30 on the clock face: hour 8 with minute at least 30, any minute of hour 9, or hour 10 with minute at most 30. The date is ignored. |
| PollWindow.BoundaryTimes | App.tsx:63-65 | 08:30 and 10:30 are open; 08:29 and 10:31 are closed, on any date. |
| PollWindow.PresetTimes | components/TimeControls.tsx:25-47 | The presets match their labels: 08:00 closed, 09:00 open, 10:25 open, 11:00 closed. |
| Ledger.FirstIndex | App.tsx:74 | Absent exactly when no record has the id. Otherwise the result is a valid index holding the id, and no earlier record holds it. |
| Ledger.FirstIndexAt | App.tsx:74 | A record with the id and none before it is the index the search returns. |
| Ledger.Find | App.tsx:55 | Absent exactly when no record has the id. Otherwise the result is a record with that id at some position, with none before it. |
| Ledger.FindIndex | App.tsx:74 | The loop returns -1 when no record matches and the first matching index otherwise. |
| Ledger.NewVote | App.tsx:93-99 | A first vote's record carries the user's id and name, the chosen option and the time, and 0 changes. |
| Ledger.Revised | App.tsx:81-86 | A changed record keeps the id and name of the existing one, takes the new option and time, and has one more change. |
| Ledger.HandleVoteStep | App.tsx:71 | The ledger can differ after a vote attempt only when the window is open. A well-formed ledger stays well-formed. |
| Ledger.MockInitialVotes | App.tsx:14-18 | The seed ledger has three records, unique ids and all change counts 0. |
| Ledger.CastOrRevise | App.tsx:73-102 | No record is dropped and the ledger grows by at most one. Ids at every old position are kept. Other colleagues' records are untouched. Any new record belongs to the voter. |
| Ledger.ClosedWindowIsNoOp | App.tsx:71 | Outside the window, every vote leaves the ledger unchanged. |
| Ledger.FirstVoteAppends | App.tsx:91-100 | A vote by an unknown user appends exactly one record at the end, with their id and name, the option, the time and 0 changes. The earlier records stay. |
| Ledger.LockedVoteIsNoOp | App.tsx:79 | A vote by a user whose record has `changesMade >= 1` returns the ledger unchanged. |
| Ledger.RevisionRewritesOneSlot | App.tsx:81-90 | A vote by a user with 0 changes rewrites only their slot. Id and name are kept; option and time are set; `changesMade` becomes 1. The length and all other slots stay. |
| Ledger.SameOptionCountsAsChange | App.tsx:81-90 | Re-submitting the same option still changes the ledger and uses up the one change. |
| Ledger.FindOtherUnchanged | App.tsx:74-100 | After a vote, looking up any other colleague gives the same answer as before. |
| Ledger.CastOrRevisePreservesWellFormed | App.tsx:74-100 | The updater keeps ids unique and every change count at most 1. |
| Ledger.StageAdvances | App.tsx:74-100 | For each colleague the stages are no vote, voted, changed. An accepted vote moves the voter one stage on, until the last stage. Everyone else stays where they are. |
| Ledger.ReplayPreservesWellFormed | App.tsx:70-103 | Any series of votes by any users at any times keeps a well-formed ledger well-formed. |
| Ledger.ReachableFromSeedIsWellFormed | App.tsx:14-18 | Every ledger reachable from the seed has unique ids and change counts in {0, 1}. |
| Ledger.LockedStaysLocked | App.tsx:79 | Once a colleague has changed their vote, no later series of votes by anyone alters their record. |
| Ledger.VotingScenario | App.tsx:70-103 | Scenario: a first vote at 09:00, a change at 09:10, a refused third vote at 09:20, and an ignored vote at 11:00. Each resulting ledger is given exactly. |
| App.PollSession.constructor | App.tsx:22-26 | A new session has the given clock, the fallback user and the seed ledger, and satisfies the invariant. |
| App.PollSession.IsPollOpen | App.tsx:68 | The session's poll is open exactly from 08:30 through 10:30 on the session clock. |
| App.PollSession.CurrentUserVote | App.tsx:55 | Absent exactly when the acting user has no record. Otherwise it is the first ledger record with the acting user's id. Under the session invariant it is the user's only record. |
| App.PollSession.HandleVote | App.tsx:70-103 | The new ledger is exactly the gated updater applied to the old one, with the session's user and time. The invariant is kept. If the card offered the submitted option (from `IsPollOpen` and `CurrentUserVote`), the ledger changes and the user's record holds that option. If the card offered nothing, the ledger stays as it was. |
| App.PollSession.SetCurrentTime | App.tsx:115-117 | Replaces the clock only. |
| App.PollSession.SetCurrentUser | App.tsx:46-49 | Replaces the acting user only. |
| VotingCard.CanChange | components/VotingCard.tsx:20 | True with no current vote. False exactly when there is a record with `changesMade >= 1`, the updater's limit test. |
| VotingCard.OfferedActions | components/VotingCard.tsx:50-108 | Nothing is offered while closed. An option is offered exactly when the poll is open and `canChange` holds. With a current vote, at most one option is offered, and never the current one. |
| VotingCard.NoVoteOffersBoth | components/VotingCard.tsx:52-69 | With the poll open and no current vote, both Yes and No are offered. |
| VotingCard.ExistingVoteOffers | components/VotingCard.tsx:81-98 | A vote with a change left offers only the opposite option. A locked vote offers nothing. |
| VotingCard.CanChangeAgreesWithUpdater | components/VotingCard.tsx:20 | `canChange` holds exactly when the updater would change the ledger. It fails exactly when the `changesMade >= 1` check of App.tsx:79 refuses the vote. |
| VotingCard.OfferedActionTakesEffect | components/VotingCard.tsx:50-98 | Any option the card offers is accepted: the ledger changes and the user's record then holds that option. |
| VotingCard.NoOfferMeansNoEffect | components/VotingCard.tsx:50-108 | When the card offers nothing, no option the user submits changes the ledger. |
| ResultsView.Matching | components/ResultsView.tsx:18-19 | The filter returns only records with the option and contains every such record. It never holds anything outside the ledger. |
| ResultsView.MatchingConcat | components/ResultsView.tsx:26 | The filter preserves order: filtering a concatenation gives the concatenation of the filtered parts. |
| ResultsView.PositionsOfSnoc | components/ResultsView.tsx:18-19 | Adding one record adds one matching position exactly when the record holds the option. |
| ResultsView.MatchingCountsPositions | components/ResultsView.tsx:18-19 | The filtered list is as long as the number of ledger positions holding the option. |
| ResultsView.YesNoPartition | components/ResultsView.tsx:18-19 | The Yes count plus the No count equals the ledger length. |
| ResultsView.ComputeStats | components/ResultsView.tsx:17-24 | The "Having Lunch" and "Skipping" values are the numbers of Yes and No positions, and they sum to the ledger length. |
| ResultsView.Attendees | components/ResultsView.tsx:26 | The list of who is going has as many entries as the Yes count. It holds only Yes records of the ledger and every one of them, compared as sets. Ledger order comes from `Render`'s tie to `Matching` and from `MatchingConcat`. |
| ResultsView.Render | components/ResultsView.tsx:35-42 | An empty ledger shows "no votes yet". A non-empty one shows the numbers of Yes and No positions, which sum to its length, and lists exactly the Yes records in ledger order. |
| ResultsView.DistinctVoters | components/ResultsView.tsx:17-24 | With unique ids, the number of records equals the number of distinct voters. |
| ResultsView.TallyCountsVoters | components/ResultsView.tsx:17-24 | For every ledger reached from the seed by any series of votes, the Yes count plus the No count is the number of distinct voters. |
| ResultsView.SeedResults | App.tsx:14-18 | The seed ledger tallies 2 Yes and 1 No. The attendees are Sarah, then Emily. |

## Left out

- Telegram handshake (App.tsx:30-52): host-platform calls (`ready`, `expand`, reading the user). The identity they yield enters only through `SetCurrentUser`.
- Timer effect (App.tsx:106-112): an interval with an empty callback; there is nothing to model.
- Summary service (services/geminiService.ts) and the summary state of the results view (components/ResultsView.tsx:14-15, 28-33): a network call to a text-generation service, plus its loading flags.
- Clock: the link between the local hour and minute and the epoch milliseconds (`getHours`, `getMinutes`, `getTime`, time zones) is not modelled. `Instant` carries all three as independent inputs.
- Seed timestamps: App.tsx:15-17 calls `Date.now()` three times, and the three values may differ. `MockInitialVotes` uses one parameter `loadedAt` for all three records. This is harmless: no modelled operation reads a seed record's timestamp.
- Display: time formatting, the chart, all markup, and the debug time buttons. The preset times appear only as the `PresetTimes` lemma.
- Platform types: `changesMade` is a `nat`, not a JavaScript number. The handler never makes it negative, and it stays at most 1, so no precision issue arises.
