/** `User.ts`: principals with plaintext credentials and a role; a voter keeps the set of
    elections it is flagged as having voted in (the `Map<string, boolean>` whose entries
    are only ever set to true). */
module Users {
  import opened Wrappers
  import opened Errors
  import opened Votes
  import opened Elections

  datatype Role =
    | Admin(adminLevel: int)
    | Voter(voterNumber: string, voted: set<string>)

  datatype User = User(id: string, name: string, email: string, password: string, role: Role)

  /** The level an Admin gets when its constructor is called without one. */
  const DefaultAdminLevel: int := 1

  /** The `Admin` constructor; a caller that omits the level passes `DefaultAdminLevel`. */
  function NewAdmin(id: string, name: string, email: string, password: string, adminLevel: int): (u: User)
    ensures u.role == Admin(adminLevel) && RoleName(u) == "Admin"
    ensures u.id == id && u.name == name && u.email == email && u.password == password
  {
    User(id, name, email, password, Admin(adminLevel))
  }

  /** The `Voter` constructor: not yet flagged in any election. */
  function NewVoter(id: string, name: string, email: string, password: string, voterNumber: string): (u: User)
    ensures RoleName(u) == "Voter"
    ensures forall e :: !HasVotedInElection(u, e)
    ensures u.id == id && u.name == name && u.email == email && u.password == password
    ensures u.role.Voter? && u.role.voterNumber == voterNumber
  {
    User(id, name, email, password, Voter(voterNumber, {}))
  }

  /** `authenticate(email, password)`: exact comparison of both. */
  predicate Authenticate(u: User, email: string, password: string) {
    u.email == email && u.password == password
  }

  /** `getRole()`. */
  function RoleName(u: User): (r: string)
    ensures r == "Admin" <==> u.role.Admin?
    ensures r == "Voter" <==> u.role.Voter?
  {
    if u.role.Admin? then "Admin" else "Voter"
  }

  /** `hasVotedInElection(e)`: `hasVoted.get(e) || false`. */
  predicate HasVotedInElection(u: User, electionId: string)
    requires u.role.Voter?
  {
    electionId in u.role.voted
  }

  /** `markAsVoted(e)`: sets the flag for `e` and no other; no flag is ever cleared, and
      the user's identity and role stay as they were. */
  function MarkAsVoted(u: User, electionId: string): (r: User)
    requires u.role.Voter?
    ensures r.role.Voter? && RoleName(r) == RoleName(u)
    ensures HasVotedInElection(r, electionId)
    ensures forall e :: e != electionId ==> (HasVotedInElection(r, e) <==> HasVotedInElection(u, e))
    ensures r.(role := u.role) == u && r.role.voterNumber == u.role.voterNumber
  {
    u.(role := u.role.(voted := u.role.voted + {electionId}))
  }

  /** `Voter.vote(election, candidateId)`, with the fresh ballot id and the clock passed in:
      refused if the voter is already flagged for that election; otherwise the voter is
      flagged and a ballot naming this voter, that election and that candidate comes back.
      It does not check the window and does not touch the election's ledger. */
  function CastBallot(u: User, election: Election, candidateId: string, voteId: string, now: int)
    : (r: Result<(User, Vote), Error>)
    requires u.role.Voter?
    ensures r.Failure? <==> HasVotedInElection(u, election.id)
    ensures r.Failure? ==> r.error == AlreadyVoted
    ensures r.Success? ==> r.value.0 == MarkAsVoted(u, election.id)
    ensures r.Success? ==> r.value.1 == Vote(voteId, u.id, election.id, candidateId, now)
  {
    if HasVotedInElection(u, election.id) then Failure(AlreadyVoted)
    else Success((MarkAsVoted(u, election.id), Vote(voteId, u.id, election.id, candidateId, now)))
  }

  /** `Admin.createElection`: the admin is recorded as creator and the type is left at its
      default, simple majority. */
  function AdminCreateElection(admin: User, freshId: string, name: string, description: string,
                               startDate: int, endDate: int): (e: Election)
    requires admin.role.Admin?
    ensures e.createdBy == admin.id && e.electionType == DefaultType && BoundTo(e.votingMethod, freshId, DefaultType)
    ensures e.id == freshId && e.name == name && e.description == description
    ensures e.startDate == startDate && e.endDate == endDate && e.candidates == []
  {
    NewElection(freshId, name, description, startDate, endDate, admin.id, DefaultType)
  }
}
