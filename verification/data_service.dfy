/** `DataService.ts`: the store of users, elections, candidates and ballots, with the
    vote-casting transaction and the queries the presentation layer calls. Every Map of
    the source is a sequence in insertion order, keyed by the entity's id; the clock and
    the fresh ids the source draws itself are parameters. */
module DataService {
  import opened Wrappers
  import opened Errors
  import opened Sequences
  import opened Votes
  import opened Candidates
  import opened VotingMethods
  import opened Elections
  import opened Users
  import Counts

  datatype Store = Store(
    users: seq<User>,
    elections: seq<Election>,
    candidates: seq<Candidate>,
    votes: seq<Vote>,
    currentUser: Option<string>)   // the id of the logged-in user

  /** What an operation leaves behind, and what it returns or throws. */
  datatype Step<T> = Step(next: Store, out: T)

  /** `users.get(id)`: the position of the user stored under `id`. */
  function FindUser(users: seq<User>, id: string): (r: Option<nat>)
    ensures r.Some? ==> r.value < |users| && users[r.value].id == id
    ensures r.Some? ==> forall j :: 0 <= j < r.value ==> users[j].id != id
    ensures r.None? <==> forall i :: 0 <= i < |users| ==> users[i].id != id
    decreases |users|
  {
    if |users| == 0 then None
    else if users[0].id == id then Some(0)
    else match FindUser(users[1..], id)
      case None => None
      case Some(i) => Some(i + 1)
  }

  /** `elections.get(id)`: the position of the election stored under `id`. */
  function FindElection(elections: seq<Election>, id: string): (r: Option<nat>)
    ensures r.Some? ==> r.value < |elections| && elections[r.value].id == id
    ensures r.Some? ==> forall j :: 0 <= j < r.value ==> elections[j].id != id
    ensures r.None? <==> forall k :: 0 <= k < |elections| ==> elections[k].id != id
    decreases |elections|
  {
    if |elections| == 0 then None
    else if elections[0].id == id then Some(0)
    else match FindElection(elections[1..], id)
      case None => None
      case Some(k) => Some(k + 1)
  }

  /** Replacing the user found under an id by one with the same id keeps it findable there. */
  lemma FindUserAfterUpdate(users: seq<User>, i: nat, u: User)
    requires FindUser(users, u.id) == Some(i)
    ensures FindUser(users[i := u], u.id) == Some(i)
  {
    assert users[i := u][i].id == u.id;
  }

  /** The position of the first user, in insertion order, whose credentials match. */
  function FirstAuthenticated(users: seq<User>, email: string, password: string): (r: Option<nat>)
    ensures r.Some? ==> r.value < |users| && Authenticate(users[r.value], email, password)
    ensures r.Some? ==> forall j :: 0 <= j < r.value ==> !Authenticate(users[j], email, password)
    ensures r.None? <==> forall i :: 0 <= i < |users| ==> !Authenticate(users[i], email, password)
    decreases |users|
  {
    if |users| == 0 then None
    else if Authenticate(users[0], email, password) then Some(0)
    else match FirstAuthenticated(users[1..], email, password)
      case None => None
      case Some(i) => Some(i + 1)
  }

  /** `login(email, password)`: the first user in insertion order whose `authenticate`
      succeeds becomes the current user and is returned; with no match nothing changes
      and the result is null. */
  function Login(s: Store, email: string, password: string): (r: Step<Option<User>>)
    ensures r.out.Some? <==> exists i :: 0 <= i < |s.users| && Authenticate(s.users[i], email, password)
    ensures r.out.Some? ==>
      exists i :: (0 <= i < |s.users| && r.out.value == s.users[i]
        && Authenticate(s.users[i], email, password)
        && (forall j :: 0 <= j < i ==> !Authenticate(s.users[j], email, password))
        && r.next == s.(currentUser := Some(s.users[i].id)))
    ensures r.out.None? ==> r.next == s
  {
    match FirstAuthenticated(s.users, email, password)
    case None => Step(s, None)
    case Some(i) => Step(s.(currentUser := Some(s.users[i].id)), Some(s.users[i]))
  }

  /** `logout()`: clears the current user and nothing else. */
  function Logout(s: Store): (r: Store)
    ensures r.currentUser.None? && CurrentUser(r).None?
    ensures r.(currentUser := s.currentUser) == s
  {
    s.(currentUser := None)
  }

  /** `getCurrentUser()`: the logged-in user as it is now: the first stored user with the
      session's id, and none when no session is open or no user has that id. */
  function CurrentUser(s: Store): (r: Option<User>)
    ensures r.Some? ==> r.value in s.users && s.currentUser == Some(r.value.id)
    ensures forall i :: (0 <= i < |s.users| && s.currentUser == Some(s.users[i].id)
      && (forall j :: 0 <= j < i ==> s.users[j].id != s.users[i].id)) ==> r == Some(s.users[i])
  {
    match s.currentUser
    case None => None
    case Some(id) =>
      match FindUser(s.users, id)
      case None => None
      case Some(i) => Some(s.users[i])
  }

  /** `getActiveElections()` at instant `now`, in insertion order. */
  function ActiveElections(s: Store, now: int): seq<Election> {
    Filter(s.elections, (e: Election) => IsActive(e, now))
  }

  /** `getFutureElections()` at instant `now`: start strictly after `now`. */
  function FutureElections(s: Store, now: int): seq<Election> {
    Filter(s.elections, (e: Election) => IsFuture(e, now))
  }

  /** `getPastElections()` at instant `now`: end strictly before `now`. */
  function PastElections(s: Store, now: int): seq<Election> {
    Filter(s.elections, (e: Election) => IsPast(e, now))
  }

  /** No stored election uses `id`. */
  predicate FreshElectionId(s: Store, id: string) {
    forall k :: 0 <= k < |s.elections| ==> s.elections[k].id != id
  }

  /** No stored candidate uses `id`. */
  predicate FreshCandidateId(s: Store, id: string) {
    forall i :: 0 <= i < |s.candidates| ==> s.candidates[i].id != id
  }

  /** No stored ballot uses `id`. */
  predicate FreshVoteId(s: Store, id: string) {
    forall i :: 0 <= i < |s.votes| ==> s.votes[i].id != id
  }

  /** `createElection(...)`: a new election under a fresh id, with the strategy its type
      selects, stored after every existing one and returned. */
  function CreateElection(s: Store, freshId: string, name: string, description: string,
                          startDate: int, endDate: int, createdBy: string, t: ElectionType)
    : (r: Step<Election>)
    requires FreshElectionId(s, freshId)
    ensures r.out.id == freshId && BoundTo(r.out.votingMethod, freshId, t) && r.out.candidates == []
    ensures r.out.name == name && r.out.description == description && r.out.createdBy == createdBy
    ensures r.out.startDate == startDate && r.out.endDate == endDate && r.out.electionType == t
    ensures r.next == s.(elections := s.elections + [r.out])
  {
    var e := Elections.CreateElection(freshId, name, description, startDate, endDate, createdBy, t);
    Step(s.(elections := s.elections + [e]), e)
  }

  /** `getCandidates(electionId)`: the stored candidates of that election, in the order
      they were stored. */
  function GetCandidates(s: Store, electionId: string): (r: seq<Candidate>)
    ensures forall c :: c in r <==> c in s.candidates && c.electionId == electionId
  {
    Filter(s.candidates, (c: Candidate) => c.electionId == electionId)
  }

  /** `createCandidate(...)`: the candidate is always stored globally; it joins the
      election's roster only if that election exists. */
  function CreateCandidate(s: Store, freshId: string, name: string, description: string,
                           imageUrl: string, electionId: string): (r: Step<Candidate>)
    requires FreshCandidateId(s, freshId)
    ensures r.out == Candidate(freshId, name, description, imageUrl, electionId)
    ensures r.next.candidates == s.candidates + [r.out]
    ensures r.next.users == s.users && r.next.votes == s.votes && r.next.currentUser == s.currentUser
    ensures FindElection(s.elections, electionId).None? ==> r.next.elections == s.elections
    ensures FindElection(s.elections, electionId).Some? ==>
      var k := FindElection(s.elections, electionId).value;
      r.next.elections == s.elections[k := AddCandidate(s.elections[k], r.out)]
  {
    var c := Candidate(freshId, name, description, imageUrl, electionId);
    var s' := s.(candidates := s.candidates + [c]);
    match FindElection(s.elections, electionId)
    case None => Step(s', c)
    case Some(k) => Step(s'.(elections := s.elections[k := AddCandidate(s.elections[k], c)]), c)
  }

  /** `hasVoted(voterId, electionId)`: false for an unknown id and for an Admin; otherwise
      the voter's flag. */
  function HasVoted(s: Store, voterId: string, electionId: string): (r: bool)
    ensures r ==>
      exists i :: (0 <= i < |s.users| && s.users[i].id == voterId
        && s.users[i].role.Voter? && electionId in s.users[i].role.voted)
    ensures FindUser(s.users, voterId).None? ==> !r
    ensures (forall i :: 0 <= i < |s.users| && s.users[i].id == voterId ==> s.users[i].role.Admin?) ==> !r
    ensures forall i :: (0 <= i < |s.users| && s.users[i].id == voterId && s.users[i].role.Voter?
      && (forall j :: 0 <= j < i ==> s.users[j].id != voterId)) ==> (r <==> electionId in s.users[i].role.voted)
  {
    match FindUser(s.users, voterId)
    case None => false
    case Some(i) => s.users[i].role.Voter? && HasVotedInElection(s.users[i], electionId)
  }

  /** The first of `castVote`'s four checks that refuses, in the source's order; `None`
      when all four pass. */
  function Refusal(s: Store, voterId: string, electionId: string, now: int): (r: Option<Error>)
    ensures r == Some(ElectionOrVoterNotFound)
       <==> FindElection(s.elections, electionId).None? || FindUser(s.users, voterId).None?
    ensures r == Some(NotAVoter)
       <==> FindElection(s.elections, electionId).Some? && FindUser(s.users, voterId).Some?
            && s.users[FindUser(s.users, voterId).value].role.Admin?
    ensures r == Some(AlreadyVoted)
       <==> FindElection(s.elections, electionId).Some? && HasVoted(s, voterId, electionId)
    ensures r == Some(ElectionNotActive)
       <==> FindElection(s.elections, electionId).Some? && FindUser(s.users, voterId).Some?
            && s.users[FindUser(s.users, voterId).value].role.Voter? && !HasVoted(s, voterId, electionId)
            && !IsActive(s.elections[FindElection(s.elections, electionId).value], now)
    ensures r.None? ==>
      (FindElection(s.elections, electionId).Some? && FindUser(s.users, voterId).Some?
       && s.users[FindUser(s.users, voterId).value].role.Voter?
       && !HasVoted(s, voterId, electionId)
       && IsActive(s.elections[FindElection(s.elections, electionId).value], now))
    ensures r.Some? ==> r.value != DuplicateBallot && r.value != ElectionNotFound
  {
    match (FindElection(s.elections, electionId), FindUser(s.users, voterId))
    case (None, _) => Some(ElectionOrVoterNotFound)
    case (_, None) => Some(ElectionOrVoterNotFound)
    case (Some(k), Some(i)) =>
      if !s.users[i].role.Voter? then Some(NotAVoter)
      else if HasVotedInElection(s.users[i], electionId) then Some(AlreadyVoted)
      else if !IsActive(s.elections[k], now) then Some(ElectionNotActive)
      else None
  }

  /** `castVote(voterId, electionId, selection)`, with the ballot id and the clock passed in.
      A refused call changes nothing. Otherwise, in the source's order, the ballot is
      stored, the voter is flagged, and the election's strategy records the selection; if
      the strategy throws, the first two writes stay (there is no rollback). */
  function CastVote(s: Store, voterId: string, electionId: string, selection: string, now: int, voteId: string)
    : (r: Step<Result<Vote, Error>>)
    requires FreshVoteId(s, voteId)
    ensures Refusal(s, voterId, electionId, now).Some? ==>
      r == Step(s, Failure(Refusal(s, voterId, electionId, now).value))
    ensures Refusal(s, voterId, electionId, now).None? ==>
      && r.next.votes == s.votes + [Vote(voteId, voterId, electionId, selection, now)]
      && HasVoted(r.next, voterId, electionId)
      && r.next.candidates == s.candidates && r.next.currentUser == s.currentUser
    ensures r.out.Success? ==> r.out.value == Vote(voteId, voterId, electionId, selection, now)
    ensures r.out.Failure? && r.out.error != DuplicateBallot ==> r.next == s
    ensures |r.next.users| == |s.users| && |r.next.elections| == |s.elections|
    ensures forall i :: 0 <= i < |s.users| && s.users[i].id != voterId ==> r.next.users[i] == s.users[i]
    ensures forall k :: 0 <= k < |s.elections| && s.elections[k].id != electionId ==>
      r.next.elections[k] == s.elections[k]
  {
    var refusal := Refusal(s, voterId, electionId, now);
    if refusal.Some? then Step(s, Failure(refusal.value))
    else
      var k := FindElection(s.elections, electionId).value;
      var i := FindUser(s.users, voterId).value;
      var vote := Vote(voteId, voterId, electionId, selection, now);
      var marked := s.(votes := s.votes + [vote],
                       users := s.users[i := MarkAsVoted(s.users[i], electionId)]);
      FindUserAfterUpdate(s.users, i, MarkAsVoted(s.users[i], electionId));
      var e := s.elections[k];
      match VotingMethods.CastVote(e.votingMethod, voterId, selection)
      case Failure(err) => Step(marked, Failure(err))
      case Success(m) => Step(marked.(elections := s.elections[k := e.(votingMethod := m)]), Success(vote))
  }

  /** `getElectionResults(electionId)`: the bound strategy's counts; unknown ids throw. */
  function GetElectionResults(s: Store, electionId: string): (r: Result<Counts.Tally, Error>)
    ensures r.Failure? <==> FindElection(s.elections, electionId).None?
    ensures r.Failure? ==> r.error == ElectionNotFound
  {
    match FindElection(s.elections, electionId)
    case None => Failure(ElectionNotFound)
    case Some(k) => Success(CalculateResults(s.elections[k].votingMethod))
  }

  /** The stored ballots cast in `electionId`, in the order they were cast. */
  function BallotsFor(votes: seq<Vote>, electionId: string): seq<Vote> {
    Filter(votes, (v: Vote) => v.electionId == electionId)
  }

  /** `getVotesCount(electionId)`: how many stored ballots name that election. */
  function GetVotesCount(s: Store, electionId: string): nat {
    |BallotsFor(s.votes, electionId)|
  }
}
