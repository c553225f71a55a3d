/** The consistency the store keeps across its operations: ids are unique keys, every
    strategy ledger is exactly the projection of that election's ballot records, and a
    voter's flag for an election is set exactly when the voter is in its ledger. */
module StoreInvariant {
  import opened Wrappers
  import opened Errors
  import opened Sequences
  import opened Votes
  import opened Candidates
  import opened VotingMethods
  import opened Elections
  import opened Users
  import opened DataService
  import Text

  /** Every Map of the store is keyed by its entities' ids. */
  predicate UniqueIds(s: Store) {
    UniqueKeys(s.users, s.elections, s.candidates, s.votes)
  }

  predicate UniqueKeys(users: seq<User>, elections: seq<Election>, candidates: seq<Candidate>, votes: seq<Vote>) {
    && (forall i, j :: 0 <= i < j < |users| ==> users[i].id != users[j].id)
    && (forall i, j :: 0 <= i < j < |elections| ==> elections[i].id != elections[j].id)
    && (forall i, j :: 0 <= i < j < |candidates| ==> candidates[i].id != candidates[j].id)
    && (forall i, j :: 0 <= i < j < |votes| ==> votes[i].id != votes[j].id)
  }

  /** `id` names a stored user whose role is Voter. */
  predicate UserIsVoter(users: seq<User>, id: string) {
    FindUser(users, id).Some? && users[FindUser(users, id).value].role.Voter?
  }

  /** The plurality ledger the given ballots produce: voter id to candidate id. */
  function PluralityLedger(ballots: seq<Vote>): seq<(string, string)> {
    seq(|ballots|, i requires 0 <= i < |ballots| => (ballots[i].voterId, ballots[i].candidateId))
  }

  /** The ranked ledger the given ballots produce: voter id to the split ranking. */
  function RankedLedger(ballots: seq<Vote>): seq<(string, seq<string>)> {
    seq(|ballots|, i requires 0 <= i < |ballots| => (ballots[i].voterId, Text.Split(ballots[i].candidateId)))
  }

  /** A strategy's ledger records exactly `ballots`, in order. */
  predicate LedgerMatches(m: VotingMethod, ballots: seq<Vote>) {
    match m
    case SimpleMajority(_, votes) => votes == PluralityLedger(ballots)
    case RankedChoice(_, rankings) => rankings == RankedLedger(ballots)
  }

  /** The strategy an election holds is the one its type selected, for that election. */
  predicate WellBound(e: Election) {
    (e.votingMethod.RankedChoice? <==> e.electionType == RankedChoiceType) && e.votingMethod.electionId == e.id
  }

  predicate Valid(s: Store) {
    ValidCollections(s.users, s.elections, s.candidates, s.votes)
  }

  /** `Valid` only looks at the four collections, never at the current user. */
  predicate ValidCollections(users: seq<User>, elections: seq<Election>, candidates: seq<Candidate>, votes: seq<Vote>) {
    && UniqueKeys(users, elections, candidates, votes)
    && BallotsResolve(users, elections, votes)
    && LedgersMatch(elections, votes)
    && DistinctLedgers(elections)
    && FlagsMatch(users, elections)
  }

  /** No voter id appears twice in one ledger: a voter's ballot is counted once. */
  predicate DistinctLedgers(elections: seq<Election>) {
    forall k :: 0 <= k < |elections| ==> NoRepeats(Voters(elections[k].votingMethod))
  }

  predicate NoRepeats(xs: seq<string>) {
    forall i, j :: 0 <= i < j < |xs| ==> xs[i] != xs[j]
  }

  /** Every ballot names a stored election and a stored Voter. */
  predicate BallotsResolve(users: seq<User>, elections: seq<Election>, votes: seq<Vote>) {
    && (forall i :: 0 <= i < |votes| ==> FindElection(elections, votes[i].electionId).Some?)
    && (forall i :: 0 <= i < |votes| ==> UserIsVoter(users, votes[i].voterId))
  }

  /** Every election holds the strategy its type selected, whose ledger records exactly
      that election's ballots. */
  predicate LedgersMatch(elections: seq<Election>, votes: seq<Vote>) {
    && (forall k :: 0 <= k < |elections| ==> WellBound(elections[k]))
    && (forall k :: 0 <= k < |elections| ==>
          LedgerMatches(elections[k].votingMethod, BallotsFor(votes, elections[k].id)))
  }

  /** A voter is flagged for an election exactly when it is in that election's ledger,
      and is flagged for no id that names no stored election. */
  predicate FlagsMatch(users: seq<User>, elections: seq<Election>) {
    && (forall i, k :: 0 <= i < |users| && 0 <= k < |elections| && users[i].role.Voter? ==>
          (elections[k].id in users[i].role.voted <==> users[i].id in Voters(elections[k].votingMethod)))
    && (forall i, e :: 0 <= i < |users| && users[i].role.Voter? && e in users[i].role.voted ==>
          FindElection(elections, e).Some?)
  }

  // ---------------------------------------------------------------------------------
  // Helpers about lookups and ledgers

  lemma FindElectionSameIds(a: seq<Election>, b: seq<Election>, id: string)
    requires |a| == |b| && forall k :: 0 <= k < |a| ==> a[k].id == b[k].id
    ensures FindElection(a, id) == FindElection(b, id)
  {
  }

  lemma FindUserSameIds(a: seq<User>, b: seq<User>, id: string)
    requires |a| == |b| && forall i :: 0 <= i < |a| ==> a[i].id == b[i].id
    ensures FindUser(a, id) == FindUser(b, id)
  {
  }

  /** With unique ids, the lookup finds the one election with that id. */
  lemma FindElectionUnique(s: Store, k: nat)
    requires UniqueIds(s) && k < |s.elections|
    ensures FindElection(s.elections, s.elections[k].id) == Some(k)
  {
  }

  /** With unique ids, the lookup finds the one user with that id. */
  lemma FindUserUnique(s: Store, i: nat)
    requires UniqueIds(s) && i < |s.users|
    ensures FindUser(s.users, s.users[i].id) == Some(i)
  {
  }

  /** A matched ledger's voters are the ballots' voters, in order. */
  lemma MatchedVoters(m: VotingMethod, ballots: seq<Vote>)
    requires LedgerMatches(m, ballots)
    ensures Voters(m) == seq(|ballots|, i requires 0 <= i < |ballots| => ballots[i].voterId)
  {
  }

  /** Appending a ballot to a matched ledger's ballots matches the ledger after `CastVote`. */
  lemma MatchedAfterCast(m: VotingMethod, ballots: seq<Vote>, b: Vote)
    requires LedgerMatches(m, ballots)
    requires VotingMethods.CastVote(m, b.voterId, b.candidateId).Success?
    ensures LedgerMatches(VotingMethods.CastVote(m, b.voterId, b.candidateId).value, ballots + [b])
  {
    var m' := VotingMethods.CastVote(m, b.voterId, b.candidateId).value;
    if m.SimpleMajority? {
      assert PluralityLedger(ballots + [b]) == PluralityLedger(ballots) + [(b.voterId, b.candidateId)];
    } else {
      assert RankedLedger(ballots + [b]) == RankedLedger(ballots) + [(b.voterId, Text.Split(b.candidateId))];
    }
  }

  // ---------------------------------------------------------------------------------
  // The flag/ledger correspondence

  /** A voter id in an election's ledger belongs to a stored Voter whose flag for that
      election is set. */
  lemma LedgerVoterIsFlagged(s: Store, k: nat, v: string)
    requires Valid(s) && k < |s.elections|
    requires v in Voters(s.elections[k].votingMethod)
    ensures HasVoted(s, v, s.elections[k].id)
  {
    var n := LedgerVoterHasBallot(s.votes, s.elections[k].votingMethod, s.elections[k].id, v);
    assert UserIsVoter(s.users, s.votes[n].voterId);
    var i := FindUser(s.users, v).value;
    assert s.users[i].id in Voters(s.elections[k].votingMethod);
  }

  /** Every voter in a matched ledger has a stored ballot for that election. */
  lemma LedgerVoterHasBallot(votes: seq<Vote>, m: VotingMethod, id: string, v: string) returns (n: nat)
    requires LedgerMatches(m, BallotsFor(votes, id)) && v in Voters(m)
    ensures n < |votes| && votes[n].voterId == v && votes[n].electionId == id
  {
    var ballots := BallotsFor(votes, id);
    MatchedVoters(m, ballots);
    var j :| 0 <= j < |ballots| && ballots[j].voterId == v;
    assert ballots[j] in votes;
    n :| 0 <= n < |votes| && votes[n] == ballots[j];
  }


  /** Within the store, a voter's flag for an existing election is set exactly when the
      voter is in that election's ledger. */
  lemma HasVotedIffInLedger(s: Store, k: nat, v: string)
    requires Valid(s) && k < |s.elections|
    ensures HasVoted(s, v, s.elections[k].id) <==> v in Voters(s.elections[k].votingMethod)
  {
    if v in Voters(s.elections[k].votingMethod) {
      LedgerVoterIsFlagged(s, k, v);
    }
  }

  /** The strategy's duplicate check never fires from `castVote` on a valid store: the
      store's own flag check refuses first. */
  lemma CastVoteNeverHitsDuplicate(s: Store, voterId: string, electionId: string, selection: string,
                                   now: int, voteId: string)
    requires Valid(s) && FreshVoteId(s, voteId)
    ensures DataService.CastVote(s, voterId, electionId, selection, now, voteId).out != Failure(DuplicateBallot)
    ensures Refusal(s, voterId, electionId, now).None? ==>
      DataService.CastVote(s, voterId, electionId, selection, now, voteId).out.Success?
  {
    if Refusal(s, voterId, electionId, now).None? {
      var k := FindElection(s.elections, electionId).value;
      if voterId in Voters(s.elections[k].votingMethod) {
        LedgerVoterIsFlagged(s, k, voterId);
        assert false;
      }
    }
  }

  // ---------------------------------------------------------------------------------
  // Preservation

  /** A ballot appended to the store joins the ballots of its own election only. */
  lemma BallotsForSnoc(votes: seq<Vote>, v: Vote, electionId: string)
    ensures BallotsFor(votes + [v], electionId)
         == BallotsFor(votes, electionId) + (if v.electionId == electionId then [v] else [])
  {
    assert (votes + [v])[..|votes|] == votes;
  }

  /** The three writes of a successful `castVote` on a valid store: ballot `vote` stored,
      user `i0` flagged for election `k0`, and that election's strategy now `m'`. */
  predicate CastWrites(s: Store, s': Store, k0: nat, i0: nat, vote: Vote, m': VotingMethod) {
    && Valid(s) && FreshVoteId(s, vote.id)
    && k0 < |s.elections| && s.elections[k0].id == vote.electionId
    && i0 < |s.users| && s.users[i0].id == vote.voterId && s.users[i0].role.Voter?
    && VotingMethods.CastVote(s.elections[k0].votingMethod, vote.voterId, vote.candidateId) == Success(m')
    && s'.users == s.users[i0 := MarkAsVoted(s.users[i0], vote.electionId)]
    && s'.elections == s.elections[k0 := s.elections[k0].(votingMethod := m')]
    && s'.candidates == s.candidates
    && s'.votes == s.votes + [vote]
  }

  lemma CastWritesKeepIds(s: Store, s': Store, k0: nat, i0: nat, vote: Vote, m': VotingMethod)
    requires CastWrites(s, s', k0, i0, vote, m')
    ensures UniqueIds(s')
    ensures forall x :: FindElection(s'.elections, x) == FindElection(s.elections, x)
    ensures forall x :: FindUser(s'.users, x) == FindUser(s.users, x)
  {
    MarkKeepsRoles(s.users, i0, vote.electionId);
    assert forall k :: 0 <= k < |s.elections| ==> s'.elections[k].id == s.elections[k].id;
    SameIdsKeepKeys(s.users, s'.users, s.elections, s'.elections, s.candidates, s.votes, vote);
    forall x: string
      ensures FindElection(s'.elections, x) == FindElection(s.elections, x)
      ensures FindUser(s'.users, x) == FindUser(s.users, x)
    {
      FindElectionSameIds(s'.elections, s.elections, x);
      FindUserSameIds(s'.users, s.users, x);
    }
  }

  /** Rewriting users and elections in place under the same ids, and appending a ballot
      with a fresh id, keeps every id a unique key. */
  lemma SameIdsKeepKeys(users: seq<User>, users': seq<User>, elections: seq<Election>, elections': seq<Election>,
                        candidates: seq<Candidate>, votes: seq<Vote>, vote: Vote)
    requires UniqueKeys(users, elections, candidates, votes)
    requires |users'| == |users| && forall i :: 0 <= i < |users| ==> users'[i].id == users[i].id
    requires |elections'| == |elections| && forall k :: 0 <= k < |elections| ==> elections'[k].id == elections[k].id
    requires forall j :: 0 <= j < |votes| ==> votes[j].id != vote.id
    ensures UniqueKeys(users', elections', candidates, votes + [vote])
  {
  }

  /** One election after a cast: the target election takes the new strategy and its
      ledger gains the ballot; any other election is unchanged and gains no ballot. */
  lemma LedgerAfterCast(e: Election, votes: seq<Vote>, vote: Vote, m': VotingMethod, e': Election)
    requires WellBound(e) && LedgerMatches(e.votingMethod, BallotsFor(votes, e.id))
    requires e.id == vote.electionId ==>
      VotingMethods.CastVote(e.votingMethod, vote.voterId, vote.candidateId) == Success(m')
      && e' == e.(votingMethod := m')
    requires e.id != vote.electionId ==> e' == e
    ensures WellBound(e') && LedgerMatches(e'.votingMethod, BallotsFor(votes + [vote], e'.id))
  {
    BallotsForSnoc(votes, vote, e.id);
    if e.id == vote.electionId {
      MatchedAfterCast(e.votingMethod, BallotsFor(votes, e.id), vote);
    }
  }

  /** Ledgers still match after the cast's strategy write and ballot append, for
      elections with distinct ids. */
  lemma LedgersAfterCast(es: seq<Election>, votes: seq<Vote>, k0: nat, vote: Vote, m': VotingMethod)
    requires k0 < |es| && es[k0].id == vote.electionId
    requires forall i, j :: 0 <= i < j < |es| ==> es[i].id != es[j].id
    requires LedgersMatch(es, votes)
    requires VotingMethods.CastVote(es[k0].votingMethod, vote.voterId, vote.candidateId) == Success(m')
    ensures LedgersMatch(es[k0 := es[k0].(votingMethod := m')], votes + [vote])
  {
    var es' := es[k0 := es[k0].(votingMethod := m')];
    forall k | 0 <= k < |es'|
      ensures WellBound(es'[k]) && LedgerMatches(es'[k].votingMethod, BallotsFor(votes + [vote], es'[k].id))
    {
      if k != k0 {
        assert es[k].id != vote.electionId by {
          if k < k0 { assert es[k].id != es[k0].id; } else { assert es[k0].id != es[k].id; }
        }
      }
      LedgerAfterCast(es[k], votes, vote, m', es'[k]);
    }
  }

  lemma CastWritesKeepLedgers(s: Store, s': Store, k0: nat, i0: nat, vote: Vote, m': VotingMethod)
    requires CastWrites(s, s', k0, i0, vote, m')
    ensures forall k :: 0 <= k < |s'.elections| ==>
      WellBound(s'.elections[k]) && LedgerMatches(s'.elections[k].votingMethod, BallotsFor(s'.votes, s'.elections[k].id))
  {
    assert UniqueKeys(s.users, s.elections, s.candidates, s.votes);
    assert LedgersMatch(s.elections, s.votes);
    LedgersAfterCast(s.elections, s.votes, k0, vote, m');
    assert LedgersMatch(s'.elections, s'.votes);
  }

  lemma CastWritesKeepFlags(s: Store, s': Store, k0: nat, i0: nat, vote: Vote, m': VotingMethod)
    requires CastWrites(s, s', k0, i0, vote, m')
    ensures forall i, k :: 0 <= i < |s'.users| && 0 <= k < |s'.elections| && s'.users[i].role.Voter? ==>
      (s'.elections[k].id in s'.users[i].role.voted <==> s'.users[i].id in Voters(s'.elections[k].votingMethod))
  {
    forall i, k | 0 <= i < |s'.users| && 0 <= k < |s'.elections| && s'.users[i].role.Voter?
      ensures s'.elections[k].id in s'.users[i].role.voted
          <==> s'.users[i].id in Voters(s'.elections[k].votingMethod)
    {
      assert s.users[i].role.Voter?;
      if i != i0 {
        assert s.users[i].id != vote.voterId;
      }
      if k != k0 {
        assert s.elections[k].id != vote.electionId;
      }
    }
  }

  /** Ballots still resolve after a rewrite that keeps every lookup and every role kind,
      and the appended ballot names a stored election and a stored Voter. */
  lemma ResolveAfterCast(users: seq<User>, users': seq<User>, elections: seq<Election>, elections': seq<Election>,
                         votes: seq<Vote>, vote: Vote)
    requires BallotsResolve(users, elections, votes)
    requires forall x :: FindElection(elections', x) == FindElection(elections, x)
    requires forall x :: FindUser(users', x) == FindUser(users, x)
    requires |users'| == |users| && forall i :: 0 <= i < |users| ==> users'[i].role.Voter? == users[i].role.Voter?
    requires FindElection(elections, vote.electionId).Some? && UserIsVoter(users, vote.voterId)
    ensures BallotsResolve(users', elections', votes + [vote])
  {
    forall i | 0 <= i < |votes| + 1
      ensures FindElection(elections', (votes + [vote])[i].electionId).Some?
      ensures UserIsVoter(users', (votes + [vote])[i].voterId)
    {
      var b := (votes + [vote])[i];
      if i < |votes| {
        assert b == votes[i];
      }
      assert UserIsVoter(users, b.voterId);
    }
  }

  /** Marking one voter keeps every user's id and role kind, and adds at most that flag. */
  lemma MarkKeepsRoles(users: seq<User>, i0: nat, electionId: string)
    requires i0 < |users| && users[i0].role.Voter?
    ensures var users' := users[i0 := MarkAsVoted(users[i0], electionId)];
      && (forall i :: 0 <= i < |users| ==> users'[i].id == users[i].id)
      && (forall i :: 0 <= i < |users| ==> users'[i].role.Voter? == users[i].role.Voter?)
      && (forall i :: 0 <= i < |users| && users'[i].role.Voter? ==>
            users'[i].role.voted <= users[i].role.voted + {electionId})
  {
  }

  /** Flags still name stored elections after a rewrite that keeps every election lookup
      and adds at most the flag for one stored election. */
  lemma FlaggedAfterCast(users: seq<User>, users': seq<User>, elections: seq<Election>, elections': seq<Election>,
                         electionId: string)
    requires forall i, e :: 0 <= i < |users| && users[i].role.Voter? && e in users[i].role.voted ==>
      FindElection(elections, e).Some?
    requires forall x :: FindElection(elections', x) == FindElection(elections, x)
    requires FindElection(elections, electionId).Some?
    requires |users'| == |users|
    requires forall i :: 0 <= i < |users| && users'[i].role.Voter? ==>
      users[i].role.Voter? && users'[i].role.voted <= users[i].role.voted + {electionId}
    ensures forall i, e :: 0 <= i < |users'| && users'[i].role.Voter? && e in users'[i].role.voted ==>
      FindElection(elections', e).Some?
  {
    forall i, e | 0 <= i < |users'| && users'[i].role.Voter? && e in users'[i].role.voted
      ensures FindElection(elections', e).Some?
    {
      if e != electionId {
        assert e in users[i].role.voted;
      }
    }
  }

  /** Recording a voter who is not yet in a ledger keeps every ledger free of repeats. */
  lemma CastKeepsDistinct(es: seq<Election>, k0: nat, m': VotingMethod, voterId: string)
    requires DistinctLedgers(es) && k0 < |es|
    requires voterId !in Voters(es[k0].votingMethod)
    requires Voters(m') == Voters(es[k0].votingMethod) + [voterId]
    ensures DistinctLedgers(es[k0 := es[k0].(votingMethod := m')])
  {
    var es' := es[k0 := es[k0].(votingMethod := m')];
    forall k | 0 <= k < |es'| ensures NoRepeats(Voters(es'[k].votingMethod)) {
      if k == k0 {
        var xs := Voters(es[k0].votingMethod);
        assert forall i :: 0 <= i < |xs| ==> (xs + [voterId])[i] == xs[i];
      }
    }
  }

  lemma CastWritesKeepValid(s: Store, s': Store, k0: nat, i0: nat, vote: Vote, m': VotingMethod)
    requires CastWrites(s, s', k0, i0, vote, m')
    ensures Valid(s')
  {
    CastWritesKeepIds(s, s', k0, i0, vote, m');
    CastWritesKeepLedgers(s, s', k0, i0, vote, m');
    CastWritesKeepFlags(s, s', k0, i0, vote, m');
    CastKeepsDistinct(s.elections, k0, m', vote.voterId);
    MarkKeepsRoles(s.users, i0, vote.electionId);
    FindUserUnique(s, i0);
    FindElectionUnique(s, k0);
    ResolveAfterCast(s.users, s'.users, s.elections, s'.elections, s.votes, vote);
    FlaggedAfterCast(s.users, s'.users, s.elections, s'.elections, vote.electionId);
  }

  /** `castVote` keeps the store valid, whether it succeeds or is refused. */
  lemma CastVotePreservesValid(s: Store, voterId: string, electionId: string, selection: string,
                               now: int, voteId: string)
    requires Valid(s) && FreshVoteId(s, voteId)
    ensures Valid(DataService.CastVote(s, voterId, electionId, selection, now, voteId).next)
  {
    var r := DataService.CastVote(s, voterId, electionId, selection, now, voteId);
    if Refusal(s, voterId, electionId, now).None? {
      CastVoteNeverHitsDuplicate(s, voterId, electionId, selection, now, voteId);
      var k0 := FindElection(s.elections, electionId).value;
      var i0 := FindUser(s.users, voterId).value;
      var vote := Vote(voteId, voterId, electionId, selection, now);
      var m' := VotingMethods.CastVote(s.elections[k0].votingMethod, voterId, selection).value;
      CastWritesKeepValid(s, r.next, k0, i0, vote, m');
    }
  }

  /** Storing one more election keeps every earlier lookup and finds the new one. */
  lemma FindElectionSnoc(a: seq<Election>, e: Election, x: string)
    requires forall k :: 0 <= k < |a| ==> a[k].id != e.id
    ensures FindElection(a + [e], x) == if x == e.id then Some(|a|) else FindElection(a, x)
  {
    var r := FindElection(a + [e], x);
    if x == e.id {
      assert (a + [e])[|a|].id == x;
    } else if FindElection(a, x).Some? {
      var j := FindElection(a, x).value;
      assert (a + [e])[j].id == x;
      assert r.value <= j;
      assert r.value < |a|;
    }
  }

  /** `createElection` keeps the store valid: the new election's ledger is empty, and no
      ballot or flag can name its fresh id. */
  lemma CreateElectionPreservesValid(s: Store, freshId: string, name: string, description: string,
                                     startDate: int, endDate: int, createdBy: string, t: ElectionType)
    requires Valid(s) && FreshElectionId(s, freshId)
    ensures Valid(DataService.CreateElection(s, freshId, name, description, startDate, endDate, createdBy, t).next)
  {
    var r := DataService.CreateElection(s, freshId, name, description, startDate, endDate, createdBy, t);
    AppendElectionKeepsValid(s, r.next, r.out);
  }

  /** No stored ballot names an election id that is not stored. */
  lemma NoBallotsForUnknownElection(s: Store, id: string)
    requires Valid(s) && FreshElectionId(s, id)
    ensures BallotsFor(s.votes, id) == []
  {
    NoBallotsNamed(s.votes, id);
  }

  lemma {:induction false} NoBallotsNamed(votes: seq<Vote>, id: string)
    requires forall i :: 0 <= i < |votes| ==> votes[i].electionId != id
    ensures BallotsFor(votes, id) == []
    decreases |votes|
  {
    if |votes| > 0 {
      var init := votes[..|votes| - 1];
      NoBallotsNamed(init, id);
      BallotsForSnoc(init, votes[|votes| - 1], id);
      assert init + [votes[|votes| - 1]] == votes;
    }
  }

  lemma AppendElectionKeepsValid(s: Store, s': Store, e: Election)
    requires Valid(s) && FreshElectionId(s, e.id)
    requires BoundTo(e.votingMethod, e.id, e.electionType)
    requires s' == s.(elections := s.elections + [e])
    ensures Valid(s')
  {
    NoBallotsForUnknownElection(s, e.id);
    AppendElectionKeepsIds(s.users, s.elections, s.candidates, s.votes, e);
    AppendElectionKeepsBallots(s.users, s.elections, s.votes, e);
    AppendElectionKeepsLedgers(s, s', e);
    AppendElectionKeepsFlags(s.users, s.elections, e);
    assert NoRepeats(Voters(e.votingMethod));
  }

  lemma AppendElectionKeepsIds(users: seq<User>, elections: seq<Election>, candidates: seq<Candidate>,
                               votes: seq<Vote>, e: Election)
    requires UniqueKeys(users, elections, candidates, votes)
    requires forall k :: 0 <= k < |elections| ==> elections[k].id != e.id
    ensures UniqueKeys(users, elections + [e], candidates, votes)
  {
  }

  lemma AppendElectionKeepsBallots(users: seq<User>, elections: seq<Election>, votes: seq<Vote>, e: Election)
    requires BallotsResolve(users, elections, votes)
    requires forall k :: 0 <= k < |elections| ==> elections[k].id != e.id
    ensures BallotsResolve(users, elections + [e], votes)
  {
    forall i | 0 <= i < |votes|
      ensures FindElection(elections + [e], votes[i].electionId).Some?
    {
      FindElectionSnoc(elections, e, votes[i].electionId);
    }
  }

  lemma AppendElectionKeepsFlags(users: seq<User>, elections: seq<Election>, e: Election)
    requires FlagsMatch(users, elections)
    requires forall k :: 0 <= k < |elections| ==> elections[k].id != e.id
    requires Voters(e.votingMethod) == []
    ensures FlagsMatch(users, elections + [e])
  {
    forall i, x | 0 <= i < |users| && users[i].role.Voter? && x in users[i].role.voted
      ensures FindElection(elections + [e], x).Some? && x != e.id
    {
      FindElectionSnoc(elections, e, x);
      assert elections[FindElection(elections, x).value].id == x;
    }
    forall i, k | 0 <= i < |users| && 0 <= k < |elections| + 1 && users[i].role.Voter?
      ensures (elections + [e])[k].id in users[i].role.voted <==> users[i].id in Voters((elections + [e])[k].votingMethod)
    {
      if k < |elections| {
        assert (elections + [e])[k] == elections[k];
      } else {
        assert FindElection(elections, e.id).None?;
      }
    }
  }

  lemma AppendElectionKeepsLedgers(s: Store, s': Store, e: Election)
    requires Valid(s) && BallotsFor(s.votes, e.id) == []
    requires BoundTo(e.votingMethod, e.id, e.electionType)
    requires s' == s.(elections := s.elections + [e])
    ensures forall k :: 0 <= k < |s'.elections| ==>
      WellBound(s'.elections[k]) && LedgerMatches(s'.elections[k].votingMethod, BallotsFor(s'.votes, s'.elections[k].id))
  {
    assert LedgerMatches(e.votingMethod, []);
  }

  /** Two election lists that agree on every election's id, type and strategy; only
      rosters and descriptive fields may differ. */
  predicate SameBindings(es: seq<Election>, es': seq<Election>) {
    |es'| == |es| && forall k :: 0 <= k < |es| ==>
      es'[k].id == es[k].id && es'[k].votingMethod == es[k].votingMethod && es'[k].electionType == es[k].electionType
  }

  /** Validity never looks at rosters: rewriting elections under the same bindings, and
      replacing the candidate list by one with unique ids, keeps the store valid. */
  lemma RebindKeepsValid(users: seq<User>, es: seq<Election>, es': seq<Election>,
                         candidates: seq<Candidate>, candidates': seq<Candidate>, votes: seq<Vote>)
    requires ValidCollections(users, es, candidates, votes) && SameBindings(es, es')
    requires forall i, j :: 0 <= i < j < |candidates'| ==> candidates'[i].id != candidates'[j].id
    ensures ValidCollections(users, es', candidates', votes)
  {
    forall x: string ensures FindElection(es', x) == FindElection(es, x) {
      FindElectionSameIds(es', es, x);
    }
  }

  lemma AddCandidateKeepsBindings(es: seq<Election>, k: nat, c: Candidate)
    requires k < |es|
    ensures SameBindings(es, es[k := AddCandidate(es[k], c)])
  {
  }

  lemma AppendFreshCandidate(candidates: seq<Candidate>, c: Candidate)
    requires forall i, j :: 0 <= i < j < |candidates| ==> candidates[i].id != candidates[j].id
    requires forall i :: 0 <= i < |candidates| ==> candidates[i].id != c.id
    ensures forall i, j :: 0 <= i < j < |candidates + [c]| ==> (candidates + [c])[i].id != (candidates + [c])[j].id
  {
  }

  /** `createCandidate` keeps the store valid: it touches only rosters and the candidate list. */
  lemma CreateCandidatePreservesValid(s: Store, freshId: string, name: string, description: string,
                                      imageUrl: string, electionId: string)
    requires Valid(s) && FreshCandidateId(s, freshId)
    ensures Valid(DataService.CreateCandidate(s, freshId, name, description, imageUrl, electionId).next)
  {
    var r := DataService.CreateCandidate(s, freshId, name, description, imageUrl, electionId);
    if FindElection(s.elections, electionId).Some? {
      AddCandidateKeepsBindings(s.elections, FindElection(s.elections, electionId).value, r.out);
    }
    AppendFreshCandidate(s.candidates, r.out);
    RebindKeepsValid(s.users, s.elections, r.next.elections, s.candidates, r.next.candidates, s.votes);
  }

  /** The empty store of the service's field initialisers, before any data is added, is
      valid. */
  lemma EmptyStoreValid()
    ensures Valid(Store([], [], [], [], None))
  {
  }

  /** The shape `initializeData` leaves the store in is valid: ids are unique keys, no
      voter is flagged, every election holds the empty strategy its type selects for its
      id, and there are no ballots. Rosters play no part. */
  lemma SeededShapeValid(users: seq<User>, elections: seq<Election>, candidates: seq<Candidate>)
    requires UniqueKeys(users, elections, candidates, [])
    requires forall i :: 0 <= i < |users| && users[i].role.Voter? ==> users[i].role.voted == {}
    requires forall k :: 0 <= k < |elections| ==>
      BoundTo(elections[k].votingMethod, elections[k].id, elections[k].electionType)
    ensures Valid(Store(users, elections, candidates, [], None))
  {
    forall k | 0 <= k < |elections|
      ensures LedgerMatches(elections[k].votingMethod, BallotsFor([], elections[k].id))
    {
      NoBallotsNamed([], elections[k].id);
    }
  }

  /** With unique ids, a successful `login` makes `getCurrentUser` return the user it
      returned. */
  lemma LoginSetsCurrentUser(s: Store, email: string, password: string)
    requires UniqueIds(s)
    ensures Login(s, email, password).out.Some? ==>
      CurrentUser(Login(s, email, password).next) == Login(s, email, password).out
  {
  }

  /** `login` and `logout` change only the current user, so they keep the store valid. */
  lemma SessionPreservesValid(s: Store, email: string, password: string)
    requires Valid(s)
    ensures Valid(Login(s, email, password).next)
    ensures Valid(Logout(s))
  {
    var l := Login(s, email, password).next;
    assert l.users == s.users && l.elections == s.elections && l.candidates == s.candidates && l.votes == s.votes;
  }
}
