/** `Election.ts`: an election with a voting window, an append-only candidate roster and
    one tally strategy bound at construction from its type. */
module Elections {
  import opened VotingMethods
  import opened Candidates

  datatype ElectionType = SimpleMajorityType | RankedChoiceType

  /** The constructor's default type. */
  const DefaultType: ElectionType := SimpleMajorityType

  datatype Election = Election(
    id: string,
    name: string,
    description: string,
    startDate: int,            // milliseconds since the epoch
    endDate: int,
    createdBy: string,
    candidates: seq<Candidate>,
    electionType: ElectionType,
    votingMethod: VotingMethod)

  /** The strategy bound to an election of type `t`: ranked choice exactly for
      `RankedChoiceType`, simple majority otherwise, with an empty ledger. */
  predicate BoundTo(m: VotingMethod, id: string, t: ElectionType) {
    && (m.RankedChoice? <==> t == RankedChoiceType)
    && m.electionId == id
    && Size(m) == 0
  }

  /** The `Election` constructor. */
  function NewElection(id: string, name: string, description: string, startDate: int, endDate: int,
                       createdBy: string, t: ElectionType): (e: Election)
    ensures BoundTo(e.votingMethod, id, t)
    ensures e.electionType == t && e.candidates == []
    ensures e.id == id && e.name == name && e.description == description
    ensures e.startDate == startDate && e.endDate == endDate && e.createdBy == createdBy
  {
    var m := if t == RankedChoiceType then RankedChoice(id, []) else SimpleMajority(id, []);
    Election(id, name, description, startDate, endDate, createdBy, [], t, m)
  }

  /** The static factory `Election.createElection`, with the fresh id it would draw
      from `crypto.randomUUID()` passed in. */
  function CreateElection(freshId: string, name: string, description: string, startDate: int, endDate: int,
                          createdBy: string, t: ElectionType): (e: Election)
    ensures e.id == freshId && BoundTo(e.votingMethod, freshId, t)
    ensures e.name == name && e.description == description && e.startDate == startDate
    ensures e.endDate == endDate && e.createdBy == createdBy && e.electionType == t
    ensures e.candidates == []
  {
    NewElection(freshId, name, description, startDate, endDate, createdBy, t)
  }

  /** `isActive()` at instant `now`: inside the window, both ends included. */
  predicate IsActive(e: Election, now: int) {
    now >= e.startDate && now <= e.endDate
  }

  /** The future filter of `DataService.getFutureElections`. */
  predicate IsFuture(e: Election, now: int) {
    e.startDate > now
  }

  /** The past filter of `DataService.getPastElections`. */
  predicate IsPast(e: Election, now: int) {
    e.endDate < now
  }

  /** For a well-formed window, every instant puts an election in exactly one phase; at
      `start` and at `end` the election is active. */
  lemma ExactlyOnePhase(e: Election, now: int)
    requires e.startDate <= e.endDate
    ensures IsActive(e, now) <==> !IsFuture(e, now) && !IsPast(e, now)
    ensures !(IsFuture(e, now) && IsPast(e, now))
    ensures now == e.startDate || now == e.endDate ==> IsActive(e, now)
  {
  }

  /** Nothing checks `start <= end`. An election whose window is reversed is never
      active; at an instant strictly between its end and its start it is both future and
      past, up to its end it is future only, and from its start on it is past only. */
  lemma ReversedWindow(e: Election, now: int)
    requires e.endDate < e.startDate
    ensures !IsActive(e, now)
    ensures e.endDate < now < e.startDate ==> IsFuture(e, now) && IsPast(e, now)
    ensures now <= e.endDate ==> IsFuture(e, now) && !IsPast(e, now)
    ensures now >= e.startDate ==> IsPast(e, now) && !IsFuture(e, now)
  {
  }

  /** `addCandidate(c)`: appends `c` with no duplicate check; earlier entries keep their
      places and nothing else about the election changes. */
  function AddCandidate(e: Election, c: Candidate): (r: Election)
    ensures |r.candidates| == |e.candidates| + 1
    ensures r.candidates[..|e.candidates|] == e.candidates && r.candidates[|e.candidates|] == c
    ensures r.(candidates := e.candidates) == e
  {
    e.(candidates := e.candidates + [c])
  }
}
