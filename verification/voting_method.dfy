/** The two tally strategies of `VotingMethod.ts`, as one tagged datatype. Each keeps a
    ledger from voter id to that voter's selection, in insertion order, and counts it. */
module VotingMethods {
  import opened Wrappers
  import opened Errors
  import opened Sequences
  import Text
  import Counts

  datatype VotingMethod =
    | SimpleMajority(electionId: string, votes: seq<(string, string)>)
    | RankedChoice(electionId: string, rankings: seq<(string, seq<string>)>)

  /** `getMethodName()`: a fixed label that tells the two strategies apart. */
  function MethodName(m: VotingMethod): (r: string)
    ensures r == "Simple Majority" <==> m.SimpleMajority?
    ensures r == "Ranked Choice" <==> m.RankedChoice?
  {
    match m
    case SimpleMajority(_, _) => "Simple Majority"
    case RankedChoice(_, _) => "Ranked Choice"
  }

  /** The voter ids in the ledger, in the order they voted. */
  function Voters(m: VotingMethod): (r: seq<string>)
    ensures |r| == Size(m)
  {
    match m
    case SimpleMajority(_, votes) => seq(|votes|, i requires 0 <= i < |votes| => votes[i].0)
    case RankedChoice(_, rankings) => seq(|rankings|, i requires 0 <= i < |rankings| => rankings[i].0)
  }

  /** The number of ledger entries. */
  function Size(m: VotingMethod): nat {
    match m
    case SimpleMajority(_, votes) => |votes|
    case RankedChoice(_, rankings) => |rankings|
  }

  /** Two ledgers of the same strategy, bound to the same election. */
  predicate SameBinding(m: VotingMethod, m': VotingMethod) {
    m.SimpleMajority? == m'.SimpleMajority? && m.electionId == m'.electionId
  }

  /** `castVote(voterId, selection)`: a voter already in the ledger is refused and the ledger
      is left as it was; otherwise exactly one entry for that voter is appended. A ranked
      strategy stores `selection.split(',')`. */
  function CastVote(m: VotingMethod, voterId: string, selection: string): (r: Result<VotingMethod, Error>)
    ensures r.Failure? <==> voterId in Voters(m)
    ensures r.Failure? ==> r.error == DuplicateBallot
    ensures r.Success? ==> SameBinding(m, r.value) && Voters(r.value) == Voters(m) + [voterId]
    ensures r.Success? && m.SimpleMajority? ==> r.value.votes == m.votes + [(voterId, selection)]
    ensures r.Success? && m.RankedChoice? ==> r.value.rankings == m.rankings + [(voterId, Text.Split(selection))]
  {
    if voterId in Voters(m) then Failure(DuplicateBallot)
    else
      match m
      case SimpleMajority(e, votes) => Success(SimpleMajority(e, votes + [(voterId, selection)]))
      case RankedChoice(e, rankings) => Success(RankedChoice(e, rankings + [(voterId, Text.Split(selection))]))
  }

  /** The candidate id each plurality ballot counts toward, in ledger order. */
  function PluralityChoices(votes: seq<(string, string)>): seq<string>
    decreases |votes|
  {
    if |votes| == 0 then []
    else PluralityChoices(votes[..|votes| - 1]) + [votes[|votes| - 1].1]
  }

  /** The first preference of each non-empty ranking, in ledger order. */
  function FirstChoices(rankings: seq<(string, seq<string>)>): seq<string>
    decreases |rankings|
  {
    if |rankings| == 0 then []
    else
      var last := rankings[|rankings| - 1].1;
      FirstChoices(rankings[..|rankings| - 1]) + (if |last| > 0 then [last[0]] else [])
  }

  /** The candidate ids the ledger's ballots count toward, in ledger order. */
  function Choices(m: VotingMethod): seq<string> {
    match m
    case SimpleMajority(_, votes) => PluralityChoices(votes)
    case RankedChoice(_, rankings) => FirstChoices(rankings)
  }

  /** `calculateResults()`: walks the ledger in order, adding one to the count of each
      ballot's choice. A fresh map; the ledger is untouched. */
  function CalculateResults(m: VotingMethod): Counts.Tally {
    Counts.Count(Choices(m))
  }

  /** Every ranking in the ledger has a first preference (true of every plurality ledger). */
  predicate AllRanked(m: VotingMethod) {
    m.RankedChoice? ==> forall i :: 0 <= i < |m.rankings| ==> |m.rankings[i].1| > 0
  }

  /** The number of ledger entries whose (first) choice is `c`: an independent reference
      for a candidate's count. */
  function Supporters(m: VotingMethod, c: string): nat {
    match m
    case SimpleMajority(_, votes) => |Filter(votes, (v: (string, string)) => v.1 == c)|
    case RankedChoice(_, rankings) =>
      |Filter(rankings, (r: (string, seq<string>)) => |r.1| > 0 && r.1[0] == c)|
  }

  lemma {:induction false} PluralityChoicesCount(votes: seq<(string, string)>, c: string)
    ensures multiset(PluralityChoices(votes))[c] == |Filter(votes, (v: (string, string)) => v.1 == c)|
    decreases |votes|
  {
    if |votes| > 0 {
      var init, last := votes[..|votes| - 1], votes[|votes| - 1];
      PluralityChoicesCount(init, c);
      assert multiset(PluralityChoices(init) + [last.1]) == multiset(PluralityChoices(init)) + multiset{last.1};
    }
  }

  lemma {:induction false} FirstChoicesCount(rankings: seq<(string, seq<string>)>, c: string)
    ensures multiset(FirstChoices(rankings))[c]
         == |Filter(rankings, (r: (string, seq<string>)) => |r.1| > 0 && r.1[0] == c)|
    decreases |rankings|
  {
    if |rankings| > 0 {
      var init, last := rankings[..|rankings| - 1], rankings[|rankings| - 1].1;
      FirstChoicesCount(init, c);
      if |last| > 0 {
        assert multiset(FirstChoices(init) + [last[0]]) == multiset(FirstChoices(init)) + multiset{last[0]};
      } else {
        assert FirstChoices(init) + [] == FirstChoices(init);
      }
    }
  }

  /** For each candidate id `c`, the result holds the number of ledger entries whose (first)
      choice is `c`; ids nobody chose are absent. */
  lemma ResultsCountSupporters(m: VotingMethod, c: string)
    ensures Counts.Get(CalculateResults(m), c)
         == if Supporters(m, c) > 0 then Some(Supporters(m, c)) else None
  {
    Counts.CountGet(Choices(m), c);
    match m
    case SimpleMajority(_, votes) => PluralityChoicesCount(votes, c);
    case RankedChoice(_, rankings) => FirstChoicesCount(rankings, c);
    assert c in Choices(m) <==> multiset(Choices(m))[c] > 0;
  }

  lemma {:induction false} PluralityChoicesLength(votes: seq<(string, string)>)
    ensures |PluralityChoices(votes)| == |votes|
    decreases |votes|
  {
    if |votes| > 0 {
      PluralityChoicesLength(votes[..|votes| - 1]);
    }
  }

  lemma {:induction false} FirstChoicesLength(rankings: seq<(string, seq<string>)>)
    requires forall i :: 0 <= i < |rankings| ==> |rankings[i].1| > 0
    ensures |FirstChoices(rankings)| == |rankings|
    decreases |rankings|
  {
    if |rankings| > 0 {
      FirstChoicesLength(rankings[..|rankings| - 1]);
    }
  }

  /** The counts add up to the number of ledger entries once every ranking is non-empty;
      an empty ledger gives an empty result. */
  lemma ResultsTotal(m: VotingMethod)
    requires AllRanked(m)
    ensures Counts.Total(CalculateResults(m)) == Size(m)
    ensures Size(m) == 0 ==> CalculateResults(m) == []
  {
    Counts.CountTotal(Choices(m));
    match m
    case SimpleMajority(_, votes) => PluralityChoicesLength(votes);
    case RankedChoice(_, rankings) => FirstChoicesLength(rankings);
  }

  lemma {:induction false} FirstChoicesOnlyHeads(r1: seq<(string, seq<string>)>, r2: seq<(string, seq<string>)>)
    requires |r1| == |r2|
    requires forall i :: 0 <= i < |r1| ==> (|r1[i].1| > 0 <==> |r2[i].1| > 0)
    requires forall i :: 0 <= i < |r1| && |r1[i].1| > 0 && |r2[i].1| > 0 ==> r1[i].1[0] == r2[i].1[0]
    ensures FirstChoices(r1) == FirstChoices(r2)
    decreases |r1|
  {
    if |r1| > 0 {
      FirstChoicesOnlyHeads(r1[..|r1| - 1], r2[..|r2| - 1]);
    }
  }

  /** A ranked count sees only first preferences: two ledgers whose rankings agree on
      which are empty and on every first element give the same results, whatever the
      later preferences say. */
  lemma RankedIgnoresLaterPreferences(m1: VotingMethod, m2: VotingMethod)
    requires m1.RankedChoice? && m2.RankedChoice?
    requires |m1.rankings| == |m2.rankings|
    requires forall i :: 0 <= i < |m1.rankings| ==> (|m1.rankings[i].1| > 0 <==> |m2.rankings[i].1| > 0)
    requires forall i :: 0 <= i < |m1.rankings| && |m1.rankings[i].1| > 0 && |m2.rankings[i].1| > 0 ==>
               m1.rankings[i].1[0] == m2.rankings[i].1[0]
    ensures CalculateResults(m1) == CalculateResults(m2)
  {
    FirstChoicesOnlyHeads(m1.rankings, m2.rankings);
  }

  /** A ranking cast through `CastVote` is never empty, so a ranked ledger built by casting
      stays `AllRanked`; the counted first preference is the text before the first comma. */
  lemma CastVoteKeepsAllRanked(m: VotingMethod, voterId: string, selection: string)
    requires AllRanked(m)
    requires CastVote(m, voterId, selection).Success?
    ensures AllRanked(CastVote(m, voterId, selection).value)
    ensures m.RankedChoice? ==>
      Choices(CastVote(m, voterId, selection).value) == Choices(m) + [Text.UpToComma(selection)]
  {
    var m' := CastVote(m, voterId, selection).value;
    if m.RankedChoice? {
      Text.SplitHead(selection);
      assert m'.rankings[..|m'.rankings| - 1] == m.rankings;
    }
  }
}
