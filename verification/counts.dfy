/** The results map of a tally: `Map<string, number>` from candidate id to vote count,
    kept as a sequence of pairs because a JavaScript Map iterates in insertion order
    and the winner's tie rule depends on that order. */
module Counts {
  import opened Wrappers

  type Tally = seq<(string, nat)>

  /** The keys of a tally, in iteration order. */
  function Keys(t: Tally): seq<string>
    decreases |t|
  {
    if |t| == 0 then [] else [t[0].0] + Keys(t[1..])
  }

  /** `results.get(k)`: the count stored under the first entry for `k`. */
  function Get(t: Tally, k: string): (r: Option<nat>)
    ensures r.Some? <==> k in Keys(t)
    decreases |t|
  {
    if |t| == 0 then None else if t[0].0 == k then Some(t[0].1) else Get(t[1..], k)
  }

  /** The sum of all counts (`resultsData.forEach(count => total += count)`). */
  function Total(t: Tally): nat
    decreases |t|
  {
    if |t| == 0 then 0 else t[0].1 + Total(t[1..])
  }

  /** `results.set(k, (results.get(k) || 0) + 1)`: an existing key is updated in place,
      a new key goes to the end. */
  function Bump(t: Tally, k: string): (r: Tally)
    ensures |r| == if k in Keys(t) then |t| else |t| + 1
    decreases |t|
  {
    if |t| == 0 then [(k, 1)]
    else if t[0].0 == k then [(k, t[0].1 + 1)] + t[1..]
    else [t[0]] + Bump(t[1..], k)
  }

  /** Bumping `k` adds one to its count (from absent to 1) and leaves every other key's count alone. */
  lemma {:induction false} BumpGet(t: Tally, k: string, j: string)
    ensures Get(Bump(t, k), j) == if j == k then Some(Get(t, k).GetOr(0) + 1) else Get(t, j)
    decreases |t|
  {
    if |t| > 0 && t[0].0 != k {
      BumpGet(t[1..], k, j);
      assert ([t[0]] + Bump(t[1..], k))[1..] == Bump(t[1..], k);
    }
  }

  /** Bumping keeps the key order and appends a key seen for the first time. */
  lemma {:induction false} BumpKeys(t: Tally, k: string)
    ensures Keys(Bump(t, k)) == if k in Keys(t) then Keys(t) else Keys(t) + [k]
    decreases |t|
  {
    if |t| > 0 && t[0].0 != k {
      BumpKeys(t[1..], k);
      assert ([t[0]] + Bump(t[1..], k))[1..] == Bump(t[1..], k);
    }
  }

  /** Bumping adds exactly one to the total. */
  lemma {:induction false} BumpTotal(t: Tally, k: string)
    ensures Total(Bump(t, k)) == Total(t) + 1
    decreases |t|
  {
    if |t| > 0 {
      if t[0].0 == k {
        assert ([(k, t[0].1 + 1)] + t[1..])[1..] == t[1..];
      } else {
        BumpTotal(t[1..], k);
        assert ([t[0]] + Bump(t[1..], k))[1..] == Bump(t[1..], k);
      }
    }
  }

  /** The counting loop of both strategies: one `Bump` per choice, left to right. */
  function Count(choices: seq<string>): Tally
    decreases |choices|
  {
    if |choices| == 0 then []
    else Bump(Count(choices[..|choices| - 1]), choices[|choices| - 1])
  }

  /** Each distinct element of `s`, in the order of its first appearance. */
  function Distinct(s: seq<string>): (r: seq<string>)
    decreases |s|
  {
    if |s| == 0 then []
    else
      var init := Distinct(s[..|s| - 1]);
      if s[|s| - 1] in s[..|s| - 1] then init else init + [s[|s| - 1]]
  }

  /** A choice's count is the number of times it was chosen; a never-chosen id is absent. */
  lemma {:induction false} CountGet(choices: seq<string>, k: string)
    ensures Get(Count(choices), k) == if k in choices then Some(multiset(choices)[k]) else None
    decreases |choices|
  {
    if |choices| > 0 {
      var init, last := choices[..|choices| - 1], choices[|choices| - 1];
      assert choices == init + [last];
      CountGet(init, k);
      var t := Count(init);
      assert Count(choices) == Bump(t, last);
      MultisetSnoc(init, last, k);
      BumpGet(t, last, k);
    }
  }

  lemma MultisetSnoc(init: seq<string>, last: string, k: string)
    ensures multiset(init + [last])[k] == multiset(init)[k] + (if last == k then 1 else 0)
    ensures k in init + [last] <==> k in init || k == last
  {
    assert multiset(init + [last]) == multiset(init) + multiset{last};
  }

  /** The counts add up to the number of choices. */
  lemma {:induction false} CountTotal(choices: seq<string>)
    ensures Total(Count(choices)) == |choices|
    decreases |choices|
  {
    if |choices| > 0 {
      CountTotal(choices[..|choices| - 1]);
      BumpTotal(Count(choices[..|choices| - 1]), choices[|choices| - 1]);
    }
  }

  /** The results iterate in order of each candidate's first vote. */
  lemma {:induction false} CountKeys(choices: seq<string>)
    ensures Keys(Count(choices)) == Distinct(choices)
    decreases |choices|
  {
    if |choices| > 0 {
      var init, last := choices[..|choices| - 1], choices[|choices| - 1];
      CountKeys(init);
      CountGet(init, last);
      BumpKeys(Count(init), last);
    }
  }

  /** A tally with a positive total has an entry with a positive count. */
  lemma {:induction false} PositiveTotalHasPositiveEntry(t: Tally)
    requires Total(t) > 0
    ensures exists i :: 0 <= i < |t| && t[i].1 > 0
    decreases |t|
  {
    if t[0].1 == 0 {
      PositiveTotalHasPositiveEntry(t[1..]);
      var i :| 0 <= i < |t[1..]| && t[1..][i].1 > 0;
      assert t[i + 1].1 > 0;
    }
  }
}
