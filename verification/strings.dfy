/**
 * The few JavaScript string operations the retargeting loop relies on:
 * `split('.')`, `startsWith` and `replace` with a string pattern.
 */
module Strings {

  const Dot: char := '.'

  predicate NoDot(s: string) {
    Dot !in s
  }

  /** `s.startsWith(prefix)`. */
  predicate StartsWith(s: string, prefix: string) {
    |prefix| <= |s| && s[..|prefix|] == prefix
  }

  /**
   * `s.replace(pattern, '')` with a string pattern: only the first occurrence
   * of `pattern` is removed, and `s` comes back unchanged when there is none.
   */
  function ReplaceFirstWithEmpty(s: string, pattern: string): (r: string)
    ensures r == s || |r| + |pattern| == |s|
    decreases |s|
  {
    if StartsWith(s, pattern) then s[|pattern|..]
    else if |s| == 0 then s
    else [s[0]] + ReplaceFirstWithEmpty(s[1..], pattern)
  }

  /**
   * `s.split('.')`: the pieces between the dots, in order. There is always
   * at least one piece, and an empty string splits into `[""]`.
   */
  function Split(s: string): (parts: seq<string>)
    ensures |parts| >= 1
  {
    if |s| == 0 then [""]
    else
      var rest := Split(s[1..]);
      if s[0] == Dot then [""] + rest
      else [[s[0]] + rest[0]] + rest[1..]
  }

  /** `parts.join('.')`, the inverse of `Split`. */
  function Join(parts: seq<string>): string
    requires |parts| >= 1
  {
    if |parts| == 1 then parts[0] else parts[0] + [Dot] + Join(parts[1..])
  }

  /** No piece of a split contains the separator. */
  lemma {:induction false} SplitPiecesHaveNoDot(s: string)
    ensures forall i :: 0 <= i < |Split(s)| ==> NoDot(Split(s)[i])
  {
    if |s| > 0 {
      SplitPiecesHaveNoDot(s[1..]);
    }
  }

  /** Joining the pieces of a split gives back the original string. */
  lemma {:induction false} JoinSplit(s: string)
    ensures Join(Split(s)) == s
  {
    if |s| > 0 {
      var rest := Split(s[1..]);
      JoinSplit(s[1..]);
      if s[0] == Dot {
        assert s == [Dot] + s[1..];
      } else if |rest| == 1 {
        assert s == [s[0]] + s[1..];
      } else {
        assert Join(rest) == rest[0] + [Dot] + Join(rest[1..]);
        assert s == [s[0]] + s[1..];
      }
    }
  }

  lemma {:induction false} SplitWithoutDot(a: string)
    requires NoDot(a)
    ensures Split(a) == [a]
  {
    if |a| > 0 {
      assert a[0] in a;
      SplitWithoutDot(a[1..]);
      assert [a[0]] + a[1..] == a;
    }
  }

  lemma {:induction false} SplitAfterFirstDot(a: string, rest: string)
    requires NoDot(a)
    ensures Split(a + [Dot] + rest) == [a] + Split(rest)
  {
    var s := a + [Dot] + rest;
    if |a| == 0 {
      assert s[1..] == rest;
    } else {
      assert s[1..] == a[1..] + [Dot] + rest;
      SplitAfterFirstDot(a[1..], rest);
      assert [a[0]] + a[1..] == a;
    }
  }

  /** Splitting a join of dot-free pieces gives back the pieces. */
  lemma {:induction false} SplitJoin(parts: seq<string>)
    requires |parts| >= 1
    requires forall i :: 0 <= i < |parts| ==> NoDot(parts[i])
    ensures Split(Join(parts)) == parts
  {
    if |parts| == 1 {
      SplitWithoutDot(parts[0]);
    } else {
      SplitJoin(parts[1..]);
      SplitAfterFirstDot(parts[0], Join(parts[1..]));
    }
  }
}
