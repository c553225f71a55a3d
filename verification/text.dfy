/** `String.prototype.split(',')` and its inverse, as the ranked strategy uses them. */
module Text {

  const Comma: char := ','

  /** The pieces of `s` between commas, as JavaScript's `s.split(',')` returns them:
      never empty (`"".split(',')` is `[""]`), one more piece than there are commas,
      and no piece holds a comma. */
  function Split(s: string): (r: seq<string>)
    ensures |r| == multiset(s)[Comma] + 1
    ensures forall i :: 0 <= i < |r| ==> Comma !in r[i]
    decreases |s|
  {
    if |s| == 0 then [""]
    else
      assert s == [s[0]] + s[1..];
      var rest := Split(s[1..]);
      if s[0] == Comma then [""] + rest
      else [[s[0]] + rest[0]] + rest[1..]
  }

  /** `parts.join(',')`. */
  function Join(parts: seq<string>): string
    requires |parts| >= 1
    decreases |parts|
  {
    if |parts| == 1 then parts[0] else parts[0] + [Comma] + Join(parts[1..])
  }

  /** The text before the first comma (all of `s` when it has none). */
  function UpToComma(s: string): (r: string)
    ensures Comma !in r
    ensures r <= s
    decreases |s|
  {
    if |s| == 0 || s[0] == Comma then "" else [s[0]] + UpToComma(s[1..])
  }

  /** Prefixing the first piece with a character prefixes the whole join. */
  lemma JoinConsHead(c: char, parts: seq<string>)
    requires |parts| >= 1
    ensures Join([[c] + parts[0]] + parts[1..]) == [c] + Join(parts)
  {
    var p := [[c] + parts[0]] + parts[1..];
    if |parts| > 1 {
      assert p[1..] == parts[1..];
    }
  }

  /** Joining the pieces of a split gives back the original text. */
  lemma {:induction false} JoinSplit(s: string)
    ensures Join(Split(s)) == s
    decreases |s|
  {
    if |s| > 0 {
      JoinSplit(s[1..]);
      var rest := Split(s[1..]);
      assert [s[0]] + s[1..] == s;
      if s[0] != Comma {
        assert Split(s) == [[s[0]] + rest[0]] + rest[1..];
        JoinConsHead(s[0], rest);
      } else {
        assert Split(s) == [""] + rest;
        assert ([""] + rest)[1..] == rest;
        assert Join([""] + rest) == [Comma] + Join(rest);
      }
    }
  }

  /** Splitting a comma-free piece yields just that piece. */
  lemma {:induction false} SplitPiece(a: string)
    requires Comma !in a
    ensures Split(a) == [a]
    decreases |a|
  {
    if |a| > 0 {
      assert Comma !in a[1..] by { assert forall c :: c in a[1..] ==> c in a; }
      SplitPiece(a[1..]);
      assert [a[0]] + a[1..] == a;
    }
  }

  /** Splitting `a + "," + b` yields `a` followed by the pieces of `b`, when `a` is comma-free. */
  lemma {:induction false} SplitAfterPiece(a: string, b: string)
    requires Comma !in a
    ensures Split(a + [Comma] + b) == [a] + Split(b)
    decreases |a|
  {
    if |a| == 0 {
      assert a + [Comma] + b == [Comma] + b;
      assert ([Comma] + b)[1..] == b;
    } else {
      assert Comma !in a[1..] by { assert forall c :: c in a[1..] ==> c in a; }
      SplitAfterPiece(a[1..], b);
      assert (a + [Comma] + b)[1..] == a[1..] + [Comma] + b;
      assert [a[0]] + a[1..] == a;
    }
  }

  /** Splitting a join of comma-free pieces gives back the pieces. */
  lemma {:induction false} SplitJoin(parts: seq<string>)
    requires |parts| >= 1
    requires forall i :: 0 <= i < |parts| ==> Comma !in parts[i]
    ensures Split(Join(parts)) == parts
    decreases |parts|
  {
    if |parts| == 1 {
      SplitPiece(parts[0]);
    } else {
      SplitJoin(parts[1..]);
      SplitAfterPiece(parts[0], Join(parts[1..]));
      assert [parts[0]] + parts[1..] == parts;
    }
  }

  /** The first piece of a split is the text before the first comma: only that
      text can reach a first-preference count. */
  lemma {:induction false} SplitHead(s: string)
    ensures Split(s)[0] == UpToComma(s)
    decreases |s|
  {
    if |s| > 0 && s[0] != Comma {
      SplitHead(s[1..]);
    }
  }
}
