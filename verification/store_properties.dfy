/** What the store's callers can rely on: the vote count, the strategy ledger and the
    results agree; a cast vote is final; existing records are never rewritten; and the
    election lists partition elections by phase. */
module StoreProperties {
  import opened Wrappers
  import opened Errors
  import opened Sequences
  import opened Votes
  import opened Candidates
  import opened VotingMethods
  import opened Elections
  import opened Users
  import opened DataService
  import opened StoreInvariant
  import Text
  import Counts

  // ---------------------------------------------------------------------------------
  // Counts and results

  /** The candidate id a ballot counts toward under election type `t`: the whole
      selection for simple majority, the text before its first comma for ranked choice. */
  function CountedChoice(t: ElectionType, b: Vote): string {
    if t == RankedChoiceType then Text.UpToComma(b.candidateId) else b.candidateId
  }

  /** The counted choice of each ballot, in ballot order. */
  function CountedChoices(t: ElectionType, ballots: seq<Vote>): seq<string> {
    seq(|ballots|, i requires 0 <= i < |ballots| => CountedChoice(t, ballots[i]))
  }

  lemma {:induction false} PluralityLedgerChoices(ballots: seq<Vote>)
    ensures PluralityChoices(PluralityLedger(ballots)) == CountedChoices(SimpleMajorityType, ballots)
    decreases |ballots|
  {
    if |ballots| > 0 {
      var init := ballots[..|ballots| - 1];
      PluralityLedgerChoices(init);
      assert PluralityLedger(ballots)[..|ballots| - 1] == PluralityLedger(init);
    }
  }

  lemma {:induction false} RankedLedgerChoices(ballots: seq<Vote>)
    ensures FirstChoices(RankedLedger(ballots)) == CountedChoices(RankedChoiceType, ballots)
    decreases |ballots|
  {
    if |ballots| > 0 {
      var init, b := ballots[..|ballots| - 1], ballots[|ballots| - 1];
      assert ballots == init + [b];
      RankedLedgerChoices(init);
      RankedLedgerSnoc(init, b);
      FirstChoicesSnoc(RankedLedger(init), (b.voterId, Text.Split(b.candidateId)));
      Text.SplitHead(b.candidateId);
      CountedChoicesSnoc(RankedChoiceType, init, b);
    }
  }

  lemma RankedLedgerSnoc(ballots: seq<Vote>, b: Vote)
    ensures RankedLedger(ballots + [b]) == RankedLedger(ballots) + [(b.voterId, Text.Split(b.candidateId))]
  {
  }

  lemma FirstChoicesSnoc(rankings: seq<(string, seq<string>)>, r: (string, seq<string>))
    ensures FirstChoices(rankings + [r]) == FirstChoices(rankings) + (if |r.1| > 0 then [r.1[0]] else [])
  {
    assert (rankings + [r])[..|rankings|] == rankings;
  }

  lemma CountedChoicesSnoc(t: ElectionType, ballots: seq<Vote>, b: Vote)
    ensures CountedChoices(t, ballots + [b]) == CountedChoices(t, ballots) + [CountedChoice(t, b)]
  {
  }

  /** A matched ledger counts exactly the ballots' counted choices, in ballot order. */
  lemma MatchedChoices(e: Election, ballots: seq<Vote>)
    requires WellBound(e) && LedgerMatches(e.votingMethod, ballots)
    ensures Choices(e.votingMethod) == CountedChoices(e.electionType, ballots)
    ensures AllRanked(e.votingMethod) && Size(e.votingMethod) == |ballots|
  {
    if e.votingMethod.SimpleMajority? {
      PluralityLedgerChoices(ballots);
    } else {
      RankedLedgerChoices(ballots);
    }
  }

  /** For a stored election, `getVotesCount` equals the size of the strategy's ledger and
      the sum of the counts `getElectionResults` returns. */
  lemma VotesCountMatchesResults(s: Store, k: nat)
    requires Valid(s) && k < |s.elections|
    ensures GetVotesCount(s, s.elections[k].id) == Size(s.elections[k].votingMethod)
    ensures GetElectionResults(s, s.elections[k].id).Success?
    ensures Counts.Total(GetElectionResults(s, s.elections[k].id).value) == GetVotesCount(s, s.elections[k].id)
  {
    var e := s.elections[k];
    FindElectionUnique(s, k);
    MatchedChoices(e, BallotsFor(s.votes, e.id));
    ResultsTotal(e.votingMethod);
  }

  /** For a stored election, each candidate id's count in `getElectionResults` is the
      number of stored ballots for that election whose counted choice is that id, and an
      id no ballot counts toward is absent. */
  lemma ResultsMatchBallots(s: Store, k: nat, c: string)
    requires Valid(s) && k < |s.elections|
    ensures var choices := CountedChoices(s.elections[k].electionType, BallotsFor(s.votes, s.elections[k].id));
      GetElectionResults(s, s.elections[k].id)
        == Success(CalculateResults(s.elections[k].votingMethod))
      && Counts.Get(CalculateResults(s.elections[k].votingMethod), c)
        == if c in choices then Some(multiset(choices)[c]) else None
  {
    var e := s.elections[k];
    FindElectionUnique(s, k);
    MatchedChoices(e, BallotsFor(s.votes, e.id));
    Counts.CountGet(Choices(e.votingMethod), c);
  }

  /** A sequence without repeats has as many distinct elements as entries. */
  lemma {:induction false} DistinctCount(xs: seq<string>)
    requires NoRepeats(xs)
    ensures |set x | x in xs| == |xs|
    decreases |xs|
  {
    if |xs| > 0 {
      var init := xs[..|xs| - 1];
      assert NoRepeats(init);
      DistinctCount(init);
      assert (set x | x in xs) == (set x | x in init) + {xs[|xs| - 1]};
      assert xs[|xs| - 1] !in init;
    }
  }

  /** For a stored election, `getVotesCount` is the number of distinct voter ids for which
      `hasVoted` holds in that election. */
  lemma VotesCountIsDistinctVoters(s: Store, k: nat)
    requires Valid(s) && k < |s.elections|
    ensures var voted := set v | v in Voters(s.elections[k].votingMethod);
      && GetVotesCount(s, s.elections[k].id) == |voted|
      && forall v :: v in voted <==> HasVoted(s, v, s.elections[k].id)
  {
    VotesCountMatchesResults(s, k);
    DistinctCount(Voters(s.elections[k].votingMethod));
    forall v ensures v in Voters(s.elections[k].votingMethod) <==> HasVoted(s, v, s.elections[k].id) {
      HasVotedIffInLedger(s, k, v);
    }
  }

  /** An id that names no stored election has no ballots and no results. */
  lemma UnknownElectionHasNoVotes(s: Store, electionId: string)
    requires Valid(s) && FindElection(s.elections, electionId).None?
    ensures GetVotesCount(s, electionId) == 0
    ensures GetElectionResults(s, electionId) == Failure(ElectionNotFound)
  {
    NoBallotsForUnknownElection(s, electionId);
  }

  /** A `castVote` that passes its checks raises that election's vote count by exactly one
      and leaves every other election's count alone; a refused one changes no count. */
  lemma CastVoteCounts(s: Store, voterId: string, electionId: string, selection: string,
                       now: int, voteId: string, other: string)
    requires FreshVoteId(s, voteId)
    ensures var r := DataService.CastVote(s, voterId, electionId, selection, now, voteId);
      GetVotesCount(r.next, electionId)
        == GetVotesCount(s, electionId) + (if Refusal(s, voterId, electionId, now).None? then 1 else 0)
      && (other != electionId ==> GetVotesCount(r.next, other) == GetVotesCount(s, other))
  {
    var vote := Vote(voteId, voterId, electionId, selection, now);
    BallotsForSnoc(s.votes, vote, electionId);
    BallotsForSnoc(s.votes, vote, other);
  }

  /** A successful `castVote` leaves every other election's ledger as it was, and extends
      this election's ledger by exactly this voter. */
  lemma CastVoteLedgers(s: Store, voterId: string, electionId: string, selection: string,
                        now: int, voteId: string, k: nat)
    requires FreshVoteId(s, voteId) && k < |s.elections|
    requires DataService.CastVote(s, voterId, electionId, selection, now, voteId).out.Success?
    ensures var next := DataService.CastVote(s, voterId, electionId, selection, now, voteId).next;
      if s.elections[k].id == electionId && FindElection(s.elections, electionId) == Some(k)
      then Voters(next.elections[k].votingMethod) == Voters(s.elections[k].votingMethod) + [voterId]
      else next.elections[k] == s.elections[k]
  {
  }

  /** After a successful `castVote(v, e, c)`, `hasVoted(v, e)` holds and every later
      `castVote(v, e, c')` is refused as a repeat vote, changing nothing, whatever `c'`,
      the time or the ballot id. */
  lemma SecondVoteRefused(s: Store, voterId: string, electionId: string, selection: string,
                          now: int, voteId: string, selection': string, now': int, voteId': string)
    requires FreshVoteId(s, voteId)
    requires DataService.CastVote(s, voterId, electionId, selection, now, voteId).out.Success?
    ensures var next := DataService.CastVote(s, voterId, electionId, selection, now, voteId).next;
      HasVoted(next, voterId, electionId)
      && (FreshVoteId(next, voteId') ==>
            DataService.CastVote(next, voterId, electionId, selection', now', voteId')
              == Step(next, Failure(AlreadyVoted)))
  {
    var next := DataService.CastVote(s, voterId, electionId, selection, now, voteId).next;
    FindElectionSameIds(next.elections, s.elections, electionId);
  }

  /** A `castVote` at an instant outside the election's window is refused, for any voter
      and selection. */
  lemma InactiveElectionRefusesVotes(s: Store, voterId: string, electionId: string, selection: string,
                                     now: int, voteId: string)
    requires FreshVoteId(s, voteId)
    requires FindElection(s.elections, electionId).Some?
    requires !IsActive(s.elections[FindElection(s.elections, electionId).value], now)
    ensures DataService.CastVote(s, voterId, electionId, selection, now, voteId).out.Failure?
    ensures DataService.CastVote(s, voterId, electionId, selection, now, voteId).next == s
  {
  }

  // ---------------------------------------------------------------------------------
  // Nothing already recorded is rewritten

  /** A user keeps its id, name, credentials and role; a voter keeps its number and only
      gains flags. */
  predicate UserEvolves(u: User, u': User) {
    && u'.id == u.id && u'.name == u.name && u'.email == u.email && u'.password == u.password
    && RoleName(u') == RoleName(u)
    && (u.role.Admin? ==> u'.role == u.role)
    && (u.role.Voter? ==> u'.role.voterNumber == u.role.voterNumber && u.role.voted <= u'.role.voted)
  }

  /** An election keeps its id, details, window, type and bound strategy; its roster and
      ledger only grow at the end. */
  predicate ElectionEvolves(e: Election, e': Election) {
    && e'.id == e.id && e'.name == e.name && e'.description == e.description
    && e'.startDate == e.startDate && e'.endDate == e.endDate && e'.createdBy == e.createdBy
    && e'.electionType == e.electionType
    && SameBinding(e.votingMethod, e'.votingMethod)
    && e.candidates <= e'.candidates
    && Voters(e.votingMethod) <= Voters(e'.votingMethod)
  }

  /** Every user keeps its place and only evolves. */
  predicate UsersEvolve(us: seq<User>, us': seq<User>) {
    |us'| == |us| && forall i :: 0 <= i < |us| ==> UserEvolves(us[i], us'[i])
  }

  /** Every election keeps its place and only evolves; new ones may follow. */
  predicate ElectionsEvolve(es: seq<Election>, es': seq<Election>) {
    |es| <= |es'| && forall k :: 0 <= k < |es| ==> ElectionEvolves(es[k], es'[k])
  }

  /** `s'` extends `s` without rewriting anything: ballots and candidates are append-only,
      no user or election is removed or loses what it had. */
  predicate Evolves(s: Store, s': Store) {
    && s.votes <= s'.votes
    && s.candidates <= s'.candidates
    && UsersEvolve(s.users, s'.users)
    && ElectionsEvolve(s.elections, s'.elections)
  }

  lemma MarkEvolves(us: seq<User>, i: nat, electionId: string)
    requires i < |us| && us[i].role.Voter?
    ensures UsersEvolve(us, us[i := MarkAsVoted(us[i], electionId)])
  {
  }

  lemma StrategyCastEvolves(es: seq<Election>, k: nat, voterId: string, selection: string)
    requires k < |es| && VotingMethods.CastVote(es[k].votingMethod, voterId, selection).Success?
    ensures ElectionsEvolve(es, es[k := es[k].(votingMethod := VotingMethods.CastVote(es[k].votingMethod, voterId, selection).value)])
  {
    var m := es[k].votingMethod;
    assert Voters(m) <= Voters(VotingMethods.CastVote(m, voterId, selection).value);
  }

  lemma CastVoteEvolves(s: Store, voterId: string, electionId: string, selection: string,
                        now: int, voteId: string)
    requires FreshVoteId(s, voteId)
    ensures Evolves(s, DataService.CastVote(s, voterId, electionId, selection, now, voteId).next)
  {
    var next := DataService.CastVote(s, voterId, electionId, selection, now, voteId).next;
    if Refusal(s, voterId, electionId, now).None? {
      var k := FindElection(s.elections, electionId).value;
      var i := FindUser(s.users, voterId).value;
      assert next.users == s.users[i := MarkAsVoted(s.users[i], electionId)];
      MarkEvolves(s.users, i, electionId);
      if VotingMethods.CastVote(s.elections[k].votingMethod, voterId, selection).Success? {
        StrategyCastEvolves(s.elections, k, voterId, selection);
      } else {
        assert next.elections == s.elections;
      }
    }
  }

  lemma CreateElectionEvolves(s: Store, freshId: string, name: string, description: string,
                              startDate: int, endDate: int, createdBy: string, t: ElectionType)
    requires FreshElectionId(s, freshId)
    ensures Evolves(s, DataService.CreateElection(s, freshId, name, description, startDate, endDate, createdBy, t).next)
  {
  }

  lemma CreateCandidateEvolves(s: Store, freshId: string, name: string, description: string,
                               imageUrl: string, electionId: string)
    requires FreshCandidateId(s, freshId)
    ensures Evolves(s, DataService.CreateCandidate(s, freshId, name, description, imageUrl, electionId).next)
  {
  }

  lemma SessionEvolves(s: Store, email: string, password: string)
    ensures Evolves(s, Login(s, email, password).next)
    ensures Evolves(s, Logout(s))
  {
  }

  // ---------------------------------------------------------------------------------
  // Rosters

  /** Each election's own roster lists exactly the stored candidates that name it, in the
      order they were stored: the two copies `createCandidate` writes agree. */
  predicate RostersMatch(s: Store) {
    forall k :: 0 <= k < |s.elections| ==> s.elections[k].candidates == GetCandidates(s, s.elections[k].id)
  }

  lemma GetCandidatesSnoc(s: Store, c: Candidate, electionId: string)
    ensures GetCandidates(s.(candidates := s.candidates + [c]), electionId)
         == GetCandidates(s, electionId) + (if c.electionId == electionId then [c] else [])
  {
    assert (s.candidates + [c])[..|s.candidates|] == s.candidates;
  }

  /** `createCandidate` adds the new candidate to `getCandidates` of its own election
      only, and keeps the rosters in step with the global list. */
  lemma CreateCandidateKeepsRosters(s: Store, freshId: string, name: string, description: string,
                                    imageUrl: string, electionId: string, other: string)
    requires UniqueIds(s) && RostersMatch(s) && FreshCandidateId(s, freshId)
    ensures var r := DataService.CreateCandidate(s, freshId, name, description, imageUrl, electionId);
      && RostersMatch(r.next)
      && GetCandidates(r.next, other) == GetCandidates(s, other) + (if other == electionId then [r.out] else [])
  {
    var r := DataService.CreateCandidate(s, freshId, name, description, imageUrl, electionId);
    var s1 := s.(candidates := s.candidates + [r.out]);
    GetCandidatesSnoc(s, r.out, other);
    assert GetCandidates(r.next, other) == GetCandidates(s1, other);
    forall k | 0 <= k < |r.next.elections|
      ensures r.next.elections[k].candidates == GetCandidates(r.next, r.next.elections[k].id)
    {
      GetCandidatesSnoc(s, r.out, s.elections[k].id);
      assert GetCandidates(r.next, s.elections[k].id) == GetCandidates(s1, s.elections[k].id);
      if FindElection(s.elections, electionId) != Some(k) {
        assert s.elections[k].id != electionId by {
          if s.elections[k].id == electionId {
            FindElectionUnique(s, k);
          }
        }
      }
    }
  }

  /** `createElection` keeps the rosters in step, provided no stored candidate already
      names the fresh id (a candidate may be created for an election that does not exist). */
  lemma CreateElectionKeepsRosters(s: Store, freshId: string, name: string, description: string,
                                   startDate: int, endDate: int, createdBy: string, t: ElectionType)
    requires RostersMatch(s) && FreshElectionId(s, freshId)
    requires forall i :: 0 <= i < |s.candidates| ==> s.candidates[i].electionId != freshId
    ensures RostersMatch(DataService.CreateElection(s, freshId, name, description, startDate, endDate, createdBy, t).next)
  {
    var r := DataService.CreateElection(s, freshId, name, description, startDate, endDate, createdBy, t);
    NoCandidatesNamed(r.next, freshId);
  }

  lemma {:induction false} NoCandidatesNamed(s: Store, id: string)
    requires forall i :: 0 <= i < |s.candidates| ==> s.candidates[i].electionId != id
    ensures GetCandidates(s, id) == []
    decreases |s.candidates|
  {
    if |s.candidates| > 0 {
      var last := s.candidates[|s.candidates| - 1];
      var init := s.(candidates := s.candidates[..|s.candidates| - 1]);
      NoCandidatesNamed(init, id);
      GetCandidatesSnoc(init, last, id);
      assert init.(candidates := init.candidates + [last]) == s;
    }
  }

  /** Without that proviso the two copies can disagree: a candidate stored for a missing
      election id is returned by `getCandidates` once an election takes that id, but is
      not on its roster. */
  lemma CreateElectionCanSplitRosters()
    ensures var s0 := Store([], [], [], [], None);
      var s1 := DataService.CreateCandidate(s0, "c", "n", "d", "u", "x").next;
      var s2 := DataService.CreateElection(s1, "x", "n", "d", 0, 1, "a", DefaultType).next;
      RostersMatch(s1) && !RostersMatch(s2)
  {
    var s0 := Store([], [], [], [], None);
    var s1 := DataService.CreateCandidate(s0, "c", "n", "d", "u", "x").next;
    var s2 := DataService.CreateElection(s1, "x", "n", "d", 0, 1, "a", DefaultType).next;
    GetCandidatesSnoc(s0, s1.candidates[0], "x");
    assert s2.elections[0].candidates == [];
    assert GetCandidates(s2, "x") == GetCandidates(s1, "x");
  }

  lemma CastVoteKeepsRosters(s: Store, voterId: string, electionId: string, selection: string,
                             now: int, voteId: string)
    requires RostersMatch(s) && FreshVoteId(s, voteId)
    ensures RostersMatch(DataService.CastVote(s, voterId, electionId, selection, now, voteId).next)
  {
    var next := DataService.CastVote(s, voterId, electionId, selection, now, voteId).next;
    if Refusal(s, voterId, electionId, now).None? {
      var k := FindElection(s.elections, electionId).value;
      var e := s.elections[k];
      match VotingMethods.CastVote(e.votingMethod, voterId, selection)
      case Failure(_) =>
        assert next.elections == s.elections;
      case Success(m) =>
        assert next.elections == s.elections[k := e.(votingMethod := m)];
    }
    RostersKept(s, next);
  }

  /** Rosters still match when the candidate list and every election's id and roster
      stay as they were. */
  lemma RostersKept(s: Store, s': Store)
    requires RostersMatch(s) && s'.candidates == s.candidates
    requires |s'.elections| == |s.elections|
    requires forall k :: 0 <= k < |s.elections| ==>
      s'.elections[k].id == s.elections[k].id && s'.elections[k].candidates == s.elections[k].candidates
    ensures RostersMatch(s')
  {
    forall k | 0 <= k < |s'.elections|
      ensures s'.elections[k].candidates == GetCandidates(s', s'.elections[k].id)
    {
      assert GetCandidates(s', s'.elections[k].id) == GetCandidates(s, s.elections[k].id);
    }
  }

  // ---------------------------------------------------------------------------------
  // Election lists

  /** For an election with `start <= end`, the active, future and past lists partition the
      stored elections at any instant; at `start` and at `end` an election is active and
      in neither of the other lists. */
  lemma PhaseLists(s: Store, now: int, e: Election)
    requires e in s.elections && e.startDate <= e.endDate
    ensures e in ActiveElections(s, now) <==> e !in FutureElections(s, now) && e !in PastElections(s, now)
    ensures !(e in FutureElections(s, now) && e in PastElections(s, now))
    ensures now == e.startDate || now == e.endDate ==>
      e in ActiveElections(s, now) && e !in FutureElections(s, now) && e !in PastElections(s, now)
  {
  }

  /** A stored election with a reversed window is in no active list; strictly between its
      end and its start it is in both the future and the past list, and otherwise in
      exactly one of them. */
  lemma ReversedWindowLists(s: Store, now: int, e: Election)
    requires e in s.elections && e.endDate < e.startDate
    ensures e !in ActiveElections(s, now)
    ensures e.endDate < now < e.startDate ==> e in FutureElections(s, now) && e in PastElections(s, now)
    ensures e in FutureElections(s, now) || e in PastElections(s, now)
  {
  }
}
