# Poly Vote Online — vote casting and tallying, in Dafny

This project models the engine behind the Poly Vote Online election app: an in-memory store of users, elections, candidates and ballot records, with one tally strategy bound to each election.

- **Strategies.** There are two: a plurality count, and a "first preference only" ranked count that splits the selection on commas.
- **Casting a vote.** The central transaction is `castVote`. It runs four guard checks, then makes three writes: the ballot record, the voter's flag and the strategy's ledger.
- **Results page.** It sums the counts, shows each candidate's figure, and names a winner by a strict-`>` scan over the results map.

Everything is functional:

- The store is a record of sequences.
- Every JavaScript `Map` of the store and of the tally becomes a sequence in insertion order, because `login`, the election filters and the winner's tie rule all depend on that order. The voter's `hasVoted` map is the one exception: its entries are only ever set to `true` and nothing iterates it, so it is a `set<string>` of election ids.
- Every operation is a pure function from a store and its inputs to the next store and an outcome (`Step`).
- The wall clock is an integer parameter `now`, in milliseconds.
- Every `crypto.randomUUID()` becomes a fresh-id parameter, with a precondition that no stored entity already uses it.

Modules, in dependency order:

| module | file | what it is |
|---|---|---|
| `Wrappers`, `Errors` | `wrappers.dfy` | `Option`, `Result`, and one error per distinct thrown message, with that message |
| `Sequences` | `sequences.dfy` | order-preserving `Filter` (`Array.prototype.filter`) |
| `Text` | `text.dfy` | JavaScript `String.prototype.split(',')` and its inverse `Join` |
| `Counts` | `counts.dfy` | the results `Map<string, number>` as a tally in insertion order, and the counting loop |
| `Votes`, `Candidates` | `records.dfy` | the immutable `Vote` and `Candidate` records |
| `VotingMethods` | `voting_method.dfy` | the two strategies as one tagged datatype |
| `Elections` | `election.dfy` | `Election`: strategy binding, time window, roster |
| `Users` | `user.dfy` | `User`, `Admin`, `Voter` |
| `DataService` | `data_service.dfy` | the store and its operations |
| `StoreInvariant` | `store_invariant.dfy` | the store invariant `Valid` and its preservation by every operation |
| `StoreProperties` | `store_properties.dfy` | what callers can rely on (see below) |
| `ElectionResults` | `election_results.dfy` | the results page's total, per-candidate figures and winner |

`StoreProperties` covers:

- counts, ledgers and results agree
- a vote is final
- nothing already recorded is rewritten
- rosters stay in step with the global candidate list
- the election lists partition elections by phase

`Valid` is the consistency the store keeps. It has five parts:

1. Ids are unique keys.
2. Every ballot names a stored election and a stored Voter.
3. Every election holds the strategy its type selected, and that strategy's ledger records exactly that election's ballots, in order, with no voter twice.
4. A voter's flag for an election is set exactly when the voter is in that election's ledger.
5. No flag names an election that is not stored.

`Valid` holds of the store `initializeData` builds: `SeededShapeValid` proves it for every store of that shape. It also holds of the empty field initialisers. It is proved to hold after `castVote`, `createElection`, `createCandidate`, `login` and `logout`. In particular, the strategy's own duplicate-ballot check can never fire from `castVote` on a valid store.

## Model

| member | source | states |
|---|---|---|
| VotingMethods.MethodName | poly-vote-online-main/src/models/VotingMethod.ts:18-20 | the label is exactly "Simple Majority" for the plurality strategy and exactly "Ranked Choice" for the ranked one (lines 52-54), and each label identifies its strategy |
| VotingMethods.CastVote | poly-vote-online-main/src/models/VotingMethod.ts:22-28 | fails with the duplicate-ballot error exactly when the voter id is already in the ledger; otherwise appends exactly one entry for that voter, keeping the strategy and its election. The plurality entry is the selection; the ranked entry is `selection.split(',')` (lines 56-65) |
| VotingMethods.ResultsCountSupporters | poly-vote-online-main/src/models/VotingMethod.ts:30-40 | each candidate id's count is the number of ledger entries that chose it; for ranked, the entries whose non-empty ranking starts with it; an id nobody chose is absent from the results |
| VotingMethods.ResultsTotal | poly-vote-online-main/src/models/VotingMethod.ts:67-83 | when no ranking is empty, the counts sum to the ledger size, and an empty ledger gives empty results |
| VotingMethods.RankedIgnoresLaterPreferences | poly-vote-online-main/src/models/VotingMethod.ts:74-80 | two ranked ledgers that agree on which rankings are empty and on every first choice give identical results, however their later preferences differ |
| VotingMethods.CastVoteKeepsAllRanked | poly-vote-online-main/src/models/VotingMethod.ts:62-64 | a ranking stored by `castVote` is never empty, and the choice it adds to the count is the selection's text before its first comma |
| Counts.CountGet | poly-vote-online-main/src/models/VotingMethod.ts:34-37 | after the counting loop, each key's count is its number of occurrences among the choices, and a key that never occurs is absent |
| Counts.CountKeys | poly-vote-online-main/src/models/VotingMethod.ts:34-37 | the results map's keys are the distinct choices in order of first appearance |
| Counts.CountTotal | poly-vote-online-main/src/models/VotingMethod.ts:34-37 | the counts sum to the number of choices counted |
| Counts.BumpGet | poly-vote-online-main/src/models/VotingMethod.ts:35-36 | `results.set(k, (results.get(k) \|\| 0) + 1)` raises k's count by one from zero or its old value, and leaves every other key's count as it was |
| Counts.BumpKeys | poly-vote-online-main/src/models/VotingMethod.ts:35-36 | setting an existing key keeps its place in iteration order; a new key goes last |
| Counts.BumpTotal | poly-vote-online-main/src/models/VotingMethod.ts:35-36 | each counted ballot raises the sum of counts by exactly one |
| Text.Split | poly-vote-online-main/src/models/VotingMethod.ts:63 | `split(',')` yields one more piece than the selection has commas, and no piece contains a comma |
| Text.JoinSplit | poly-vote-online-main/src/models/VotingMethod.ts:63 | joining the pieces with commas gives back the selection exactly |
| Text.SplitJoin | poly-vote-online-main/src/models/VotingMethod.ts:63 | splitting a comma-joined list of comma-free ids gives back that list |
| Text.SplitHead | poly-vote-online-main/src/models/VotingMethod.ts:76 | the first piece of a split is the text before the first comma |
| Elections.NewElection | poly-vote-online-main/src/models/Election.ts:87-105 | binds the ranked strategy exactly when the type is ranked choice, the plurality strategy otherwise, for this election's id and with an empty ledger; every field equals its argument and the roster starts empty |
| Elections.CreateElection | poly-vote-online-main/src/models/Election.ts:117-134 | the new election has the fresh id and the given name, description, dates, creator and type, with the strategy that type selects, bound to the fresh id with an empty ledger, and an empty roster |
| Elections.ExactlyOnePhase | poly-vote-online-main/src/models/Election.ts:72-75 | for a window with start at or before end, an election is active (`start <= now <= end`, both ends inclusive) exactly when it is neither future nor past, never both future and past, and active at both boundary instants |
| Elections.ReversedWindow | poly-vote-online-main/src/services/DataService.ts:206-218 | nothing checks `start <= end`: an election with a reversed window is never active; strictly between its end and its start it passes both the future and the past test, up to its end only the future test, from its start on only the past test |
| Elections.AddCandidate | poly-vote-online-main/src/models/Election.ts:66-69 | appends the candidate at the end with no duplicate check; earlier entries keep their places and nothing else about the election changes |
| Users.NewAdmin | poly-vote-online-main/src/models/User.ts:42-45 | an Admin's level is the one passed (the source's default of 1 is `DefaultAdminLevel`, passed by a caller that omits it) and its role reads "Admin"; the other fields equal the arguments |
| Users.NewVoter | poly-vote-online-main/src/models/User.ts:69-76 | a new Voter's role reads "Voter", it keeps the given voter number, and it has voted in no election yet |
| Users.RoleName | poly-vote-online-main/src/models/User.ts:47-49 | `getRole` is "Admin" exactly for an Admin and "Voter" exactly for a Voter (lines 78-80) |
| Users.MarkAsVoted | poly-vote-online-main/src/models/User.ts:92-94 | sets the flag for that election, leaves every other election's flag as it was, and changes nothing else about the voter |
| Users.CastBallot | poly-vote-online-main/src/models/User.ts:97-111 | `Voter.vote` refuses exactly when the voter already voted in that election; otherwise it marks the voter and returns a ballot naming this voter, that election and the given candidate |
| Users.AdminCreateElection | poly-vote-online-main/src/models/User.ts:56-65 | the election an Admin creates names the Admin as its creator and has the default simple-majority type, with a simple-majority strategy bound to the fresh id and an empty ledger |
| DataService.FindUser | poly-vote-online-main/src/services/DataService.ts:268 | `users.get(id)` finds the user stored under that id, and finds nothing exactly when no user has it |
| DataService.FindElection | poly-vote-online-main/src/services/DataService.ts:202-204 | `getElection(id)` finds the election stored under that id, and finds nothing exactly when no election has it |
| DataService.FirstAuthenticated | poly-vote-online-main/src/services/DataService.ts:180-185 | the scan stops at the first user in insertion order whose email and password both match exactly, and finds nobody exactly when no user matches |
| DataService.Login | poly-vote-online-main/src/services/DataService.ts:179-187 | returns a user exactly when some user's credentials match; that user is the first match in insertion order and becomes the current user; with no match the result is null and the store is unchanged |
| DataService.Logout | poly-vote-online-main/src/services/DataService.ts:189-191 | clears the current user and changes nothing else |
| DataService.CurrentUser | poly-vote-online-main/src/services/DataService.ts:193-195 | the current user, when there is one, is a stored user with the id the session holds; when a stored user has that id, the first such user is returned, so an open session for a stored user never reads as none |
| DataService.CreateElection | poly-vote-online-main/src/services/DataService.ts:220-231 | stores the new election after all existing ones and returns it, with every field taken from the arguments |
| DataService.GetCandidates | poly-vote-online-main/src/services/DataService.ts:234-238 | returns exactly the stored candidates whose election id is the one asked for |
| StoreProperties.GetCandidatesSnoc | poly-vote-online-main/src/services/DataService.ts:234-238 | storing one more candidate adds it at the end of `getCandidates` for its own election and nowhere else, so the result keeps insertion order |
| DataService.CreateCandidate | poly-vote-online-main/src/services/DataService.ts:240-263 | always stores the candidate in the global list; appends it to the election's roster when that election exists, and leaves every election unchanged when it does not |
| DataService.HasVoted | poly-vote-online-main/src/services/DataService.ts:324-332 | false for an unknown user id and for an Admin; for the stored Voter with that id, true exactly when the voter is flagged for that election |
| DataService.Refusal | poly-vote-online-main/src/services/DataService.ts:266-284 | the four checks run in the source's order: missing election or user, then not a Voter, then already voted, then outside the window; each error is returned exactly when the earlier checks pass and its own fails |
| DataService.CastVote | poly-vote-online-main/src/services/DataService.ts:266-305 | a refused call throws its check's error and mutates nothing; otherwise the ballot is appended and the voter flagged; the result is the ballot with the given id, voter, election, selection and time; no other user or election changes |
| DataService.GetElectionResults | poly-vote-online-main/src/services/DataService.ts:308-316 | throws "Election not found" exactly when no election has the id |
| StoreInvariant.LedgerVoterIsFlagged | poly-vote-online-main/src/services/DataService.ts:296-302 | on a valid store, every voter id in an election's ledger belongs to a stored Voter whose flag for that election is set |
| StoreInvariant.HasVotedIffInLedger | poly-vote-online-main/src/services/DataService.ts:324-332 | on a valid store, `hasVoted(v, e)` holds exactly when v is in e's ledger |
| StoreInvariant.CastVoteNeverHitsDuplicate | poly-vote-online-main/src/services/DataService.ts:296-302 | on a valid store the strategy's duplicate-ballot throw is unreachable: a `castVote` that passes the four checks succeeds |
| StoreInvariant.CastVotePreservesValid | poly-vote-online-main/src/services/DataService.ts:266-305 | `castVote` keeps the store valid, whether it succeeds or is refused |
| StoreInvariant.CreateElectionPreservesValid | poly-vote-online-main/src/services/DataService.ts:220-231 | `createElection` with a fresh id keeps the store valid |
| StoreInvariant.CreateCandidatePreservesValid | poly-vote-online-main/src/services/DataService.ts:240-263 | `createCandidate` with a fresh id keeps the store valid |
| StoreInvariant.EmptyStoreValid | poly-vote-online-main/src/services/DataService.ts:11-16 | the store's fields as initialised at lines 11-16 (empty maps, no current user), before the constructor's `initializeData` call seeds them, are valid: the base case of the consistency the operations keep |
| StoreInvariant.SeededShapeValid | poly-vote-online-main/src/services/DataService.ts:30-176 | every store of the shape `initializeData` builds is valid: users, elections and candidates with unique ids, no voter flagged, each election holding the empty strategy its type selects for its id, and no ballots. This is the base case from which votes can succeed |
| StoreInvariant.LoginSetsCurrentUser | poly-vote-online-main/src/services/DataService.ts:179-195 | with unique ids, after a successful `login` `getCurrentUser` returns the user `login` returned |
| StoreInvariant.SessionPreservesValid | poly-vote-online-main/src/services/DataService.ts:179-191 | `login` and `logout` keep the store valid |
| StoreProperties.VotesCountMatchesResults | poly-vote-online-main/src/services/DataService.ts:308-322 | on a valid store, for a stored election, `getVotesCount` equals the ledger size and the sum of the results' counts |
| StoreProperties.VotesCountIsDistinctVoters | poly-vote-online-main/src/services/DataService.ts:318-322 | on a valid store, `getVotesCount(e)` is the number of distinct voter ids for which `hasVoted(v, e)` holds |
| StoreProperties.ResultsMatchBallots | poly-vote-online-main/src/services/DataService.ts:308-316 | on a valid store, each id's count in `getElectionResults(e)` is the number of e's ballot records that count toward it: the whole selection for plurality, the text before the first comma for ranked |
| StoreProperties.UnknownElectionHasNoVotes | poly-vote-online-main/src/services/DataService.ts:308-322 | on a valid store, an id that names no election has a vote count of 0 and its results throw "Election not found" |
| StoreProperties.CastVoteCounts | poly-vote-online-main/src/services/DataService.ts:296-322 | a `castVote` that passes its checks raises that election's `getVotesCount` by exactly one; every other election's count, and every count after a refusal, stays the same |
| StoreProperties.CastVoteLedgers | poly-vote-online-main/src/services/DataService.ts:301-302 | a successful `castVote` adds exactly this voter to this election's ledger and leaves every other election unchanged |
| StoreProperties.SecondVoteRefused | poly-vote-online-main/src/services/DataService.ts:278-280 | after a successful `castVote(v, e, c)`, `hasVoted(v, e)` holds, and any later `castVote(v, e, c')` throws "already voted" and changes nothing, for any selection, time or ballot id |
| StoreProperties.InactiveElectionRefusesVotes | poly-vote-online-main/src/services/DataService.ts:282-284 | a vote at an instant outside the election's window fails and changes nothing |
| StoreProperties.CastVoteEvolves | poly-vote-online-main/src/services/DataService.ts:295-302 | `castVote` only appends a ballot, adds flags and extends a ledger. No id, credential, role, voter number, window, type, bound strategy or roster entry changes, and no flag is cleared |
| StoreProperties.CreateElectionEvolves | poly-vote-online-main/src/services/DataService.ts:228-230 | `createElection` only adds an election at the end |
| StoreProperties.CreateCandidateEvolves | poly-vote-online-main/src/services/DataService.ts:254-260 | `createCandidate` only appends to the candidate list and one roster; a stored candidate, including its owning election, never changes |
| StoreProperties.SessionEvolves | poly-vote-online-main/src/services/DataService.ts:179-191 | `login` and `logout` rewrite no record |
| StoreProperties.CreateCandidateKeepsRosters | poly-vote-online-main/src/services/DataService.ts:240-263 | when every roster equals `getCandidates` for its election, it still does after `createCandidate`; `getCandidates` gains the new candidate for its own election only |
| StoreProperties.CreateElectionKeepsRosters | poly-vote-online-main/src/services/DataService.ts:220-231 | `createElection` keeps every roster equal to `getCandidates` for its election, provided no stored candidate already names the fresh id |
| StoreProperties.CreateElectionCanSplitRosters | poly-vote-online-main/src/services/DataService.ts:254-260 | without that proviso they diverge: a candidate created for a missing election id is returned by `getCandidates` once an election takes that id, but is not on its roster |
| StoreProperties.CastVoteKeepsRosters | poly-vote-online-main/src/services/DataService.ts:266-305 | `castVote` keeps every roster equal to `getCandidates` for its election |
| StoreProperties.PhaseLists | poly-vote-online-main/src/services/DataService.ts:206-218 | for a window with start at or before end, the active, future and past lists partition the elections at any instant; at start and at end an election is in the active list only |
| StoreProperties.ReversedWindowLists | poly-vote-online-main/src/services/DataService.ts:206-218 | a stored election with a reversed window is never in the active list; strictly between its end and its start it is in both the future and the past list, and at every instant it is in at least one of them |
| ElectionResults.SumVotes | poly-vote-online-main/src/components/ElectionResults.tsx:55-59 | the page's running total is the sum of all counts in the results map |
| ElectionResults.VotesForSupporters | poly-vote-online-main/src/components/ElectionResults.tsx:63-69 | the figure shown for a candidate, `results.get(id) \|\| 0`, is the number of ballots counted toward that candidate, and 0 when none is |
| ElectionResults.ChartDataCountsSupporters | poly-vote-online-main/src/components/ElectionResults.tsx:62-70 | there is one chart entry per listed candidate, in the order `getCandidates` returns them, with that candidate's name and its counted ballots |
| ElectionResults.Leader | poly-vote-online-main/src/components/ElectionResults.tsx:104-112 | the scan's maximum is at least every count. When positive, the winner id is the first entry in map order that reaches it; a later tie does not replace it, because the comparison is strict. With no positive count the winner id stays "" |
| ElectionResults.LeaderUnique | poly-vote-online-main/src/components/ElectionResults.tsx:104-112 | at most one id leads the results |
| ElectionResults.GetWinner | poly-vote-online-main/src/components/ElectionResults.tsx:101-115 | null when the total is 0. Otherwise, the first listed candidate whose id leads the results, or null when no listed candidate does |

## Left out

- Rendering, routing and UI state are presentation and are not modelled. This covers the React components, the JSX of `ElectionResults.tsx`, `AuthContext.tsx` and the pages.
- The singleton `getInstance` is not modelled; a `Store` value is constructed explicitly instead.
- The seed data of `initializeData` is not modelled. Concrete string data makes proofs far more expensive than the general lemmas. A vote against seed election "2" would be an instance of `SecondVoteRefused`, `CastVoteCounts` and `ResultsMatchBallots`.
- The wall clock becomes the parameter `now`, in milliseconds.
  - `getActiveElections` reads the clock once per election (inside `isActive`), and `getFutureElections` and `getPastElections` once per call. The model evaluates each list at one instant.
  - `castVote` reads the clock twice: once in `isActive` for the window check and once for the ballot's timestamp. The model uses one `now` for both, so a model ballot's timestamp always lies inside the election's window; the source does not guarantee that, since the second reading may fall after the end.
  - Calendar arithmetic (`setDate`) is not modelled.
- `crypto.randomUUID()` becomes a fresh-id parameter with a precondition that no stored entity uses it. That UUIDs do not collide is assumed, not modelled.
- Getters are the records' own fields. The source's classes never change a field after construction, and the model's datatypes are immutable, so repeated reads return the same values. This covers:
  - all getters of `Vote`, `Candidate`, `User` and `Election`
  - `Election.getVotingMethod` and `getType`
  - `getElections`, which is the store's election sequence itself
- `Election.getCandidates` returns a copy of the roster. A Dafny sequence is a value, so a caller can never mutate the election through it.
- `Users.HasVotedInElection`, `Users.Authenticate`, `Elections.IsActive` and `DataService.GetVotesCount` are the definitions the contracts above are stated in, rather than members with contracts of their own.
- `Voter.vote` (`Users.CastBallot`) sets the voter's flag without touching any ledger, and the store never calls it. `Valid` requires every set flag to have a ledger entry, and a flag set by `Voter.vote` has none, so such a store is outside `Valid`.
- The results page's percentages are not modelled (floating point), nor is the chart styling.
- The source has no true instant-runoff counting, and none is invented here.
- Two behaviours of the code worth noting:
  - `castVote` can leave a partial write. If the strategy threw after the ballot and the flag were written, those two writes would stay, since there is no rollback. `DataService.CastVote` models that path. `StoreInvariant.CastVoteNeverHitsDuplicate` shows it is unreachable on a valid store.
  - The vote count counts ballot records, not ledger entries. The two agree on a valid store (`StoreProperties.VotesCountMatchesResults`).
