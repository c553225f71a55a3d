/** The results page: the total, each candidate's count, and the winner it announces. */
module ElectionResults {
  import opened Wrappers
  import opened Candidates
  import opened VotingMethods
  import Counts

  /** The page's running sum over the results map. */
  method SumVotes(results: Counts.Tally) returns (total: nat)
    ensures total == Counts.Total(results)
  {
    total := 0;
    var i := 0;
    while i < |results|
      invariant 0 <= i <= |results|
      invariant total + Counts.Total(results[i..]) == Counts.Total(results)
    {
      assert results[i..][1..] == results[i + 1..];
      total := total + results[i].1;
      i := i + 1;
    }
  }

  /** `results.get(id) || 0`: a candidate nobody counted toward shows zero votes. */
  function VotesFor(results: Counts.Tally, id: string): nat {
    Counts.Get(results, id).GetOr(0)
  }

  /** What the page shows a candidate is the number of ballots that count toward them. */
  lemma VotesForSupporters(m: VotingMethod, c: string)
    ensures VotesFor(CalculateResults(m), c) == Supporters(m, c)
  {
    ResultsCountSupporters(m, c);
  }

  /** One chart bar per listed candidate (the page lists `getCandidates`), in list order:
      its name and its votes. */
  function ChartData(candidates: seq<Candidate>, results: Counts.Tally): (r: seq<(string, nat)>)
    ensures |r| == |candidates|
  {
    seq(|candidates|, i requires 0 <= i < |candidates| => (candidates[i].name, VotesFor(results, candidates[i].id)))
  }

  /** Each bar shows its candidate's supporters under the election's strategy. */
  lemma ChartDataCountsSupporters(m: VotingMethod, candidates: seq<Candidate>, i: nat)
    requires i < |candidates|
    ensures ChartData(candidates, CalculateResults(m))[i] == (candidates[i].name, Supporters(m, candidates[i].id))
  {
    VotesForSupporters(m, candidates[i].id);
  }

  /** `id` leads: its entry has a positive count that no entry exceeds, and every entry
      before it has strictly fewer votes (a tie goes to the entry first in map order). */
  predicate Leads(results: Counts.Tally, id: string) {
    exists j :: 0 <= j < |results| && results[j].0 == id && results[j].1 > 0
      && (forall j' :: 0 <= j' < |results| ==> results[j'].1 <= results[j].1)
      && (forall j' :: 0 <= j' < j ==> results[j'].1 < results[j].1)
  }

  /** At most one id leads. */
  lemma LeaderUnique(results: Counts.Tally, a: string, b: string)
    requires Leads(results, a) && Leads(results, b)
    ensures a == b
  {
    var ja :| 0 <= ja < |results| && results[ja].0 == a && results[ja].1 > 0
      && (forall j' :: 0 <= j' < |results| ==> results[j'].1 <= results[ja].1)
      && (forall j' :: 0 <= j' < ja ==> results[j'].1 < results[ja].1);
    var jb :| 0 <= jb < |results| && results[jb].0 == b && results[jb].1 > 0
      && (forall j' :: 0 <= j' < |results| ==> results[j'].1 <= results[jb].1)
      && (forall j' :: 0 <= j' < jb ==> results[j'].1 < results[jb].1);
    assert ja == jb;
  }

  /** The page's scan for the most votes: it replaces the leader only on a strictly
      greater count, starting from `""` and 0. */
  method Leader(results: Counts.Tally) returns (winnerId: string, maxVotes: nat)
    ensures forall j :: 0 <= j < |results| ==> results[j].1 <= maxVotes
    ensures maxVotes == 0 ==> winnerId == ""
    ensures maxVotes > 0 ==> Leads(results, winnerId)
    ensures maxVotes > 0 ==> exists j :: 0 <= j < |results| && results[j] == (winnerId, maxVotes)
  {
    winnerId, maxVotes := "", 0;
    ghost var at := 0;
    var i := 0;
    while i < |results|
      invariant 0 <= i <= |results|
      invariant forall j :: 0 <= j < i ==> results[j].1 <= maxVotes
      invariant maxVotes == 0 ==> winnerId == ""
      invariant maxVotes > 0 ==> at < i && results[at] == (winnerId, maxVotes)
      invariant maxVotes > 0 ==> forall j :: 0 <= j < at ==> results[j].1 < maxVotes
    {
      if results[i].1 > maxVotes {
        winnerId, maxVotes := results[i].0, results[i].1;
        at := i;
      }
      i := i + 1;
    }
    if maxVotes > 0 {
      assert results[at].0 == winnerId && results[at].1 > 0;
    }
  }

  /** The page's `getWinner`: no winner when no votes were counted; otherwise the first
      roster candidate whose id leads the results, or none when no roster candidate does. */
  method GetWinner(results: Counts.Tally, candidates: seq<Candidate>) returns (w: Option<Candidate>)
    ensures Counts.Total(results) == 0 ==> w == None
    ensures w.Some? ==> Leads(results, w.value.id)
    ensures w.Some? ==> exists i :: (0 <= i < |candidates| && candidates[i] == w.value
      && forall i' :: 0 <= i' < i ==> candidates[i'].id != w.value.id)
    ensures w.None? && Counts.Total(results) > 0 ==>
      forall i :: 0 <= i < |candidates| ==> !Leads(results, candidates[i].id)
  {
    var total := SumVotes(results);
    if total == 0 {
      return None;
    }
    var winnerId, maxVotes := Leader(results);
    Counts.PositiveTotalHasPositiveEntry(results);
    assert maxVotes > 0;
    var i := 0;
    while i < |candidates|
      invariant 0 <= i <= |candidates|
      invariant forall i' :: 0 <= i' < i ==> candidates[i'].id != winnerId
    {
      if candidates[i].id == winnerId {
        return Some(candidates[i]);
      }
      i := i + 1;
    }
    forall i' | 0 <= i' < |candidates|
      ensures !Leads(results, candidates[i'].id)
    {
      if Leads(results, candidates[i'].id) {
        LeaderUnique(results, winnerId, candidates[i'].id);
      }
    }
    return None;
  }
}
