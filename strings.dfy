/**
 * The string operations the C# code takes from .NET (`String.Split(char)`,
 * first and last occurrence of a character), over `string` = `seq<char>`.
 */
module Strings {
  import opened Wrappers

  /** Position of the first occurrence of `c` in `s`, `None` when there is none. */
  function IndexOf(s: string, c: char): (r: Option<nat>)
    ensures r.None? <==> c !in s
    ensures r.Some? ==> r.value < |s| && s[r.value] == c && c !in s[..r.value]
  {
    if s == [] then None
    else if s[0] == c then Some(0)
    else
      match IndexOf(s[1..], c)
      case None =>
        assert s == [s[0]] + s[1..];
        None
      case Some(k) =>
        assert s[..k + 1] == [s[0]] + s[1..][..k];
        Some(k + 1)
  }

  /** Position of the last occurrence of `c` in `s`, `None` when there is none. */
  function LastIndexOf(s: string, c: char): (r: Option<nat>)
    ensures r.None? <==> c !in s
    ensures r.Some? ==> r.value < |s| && s[r.value] == c && c !in s[r.value + 1..]
  {
    if s == [] then None
    else if s[|s| - 1] == c then Some(|s| - 1)
    else
      var r := LastIndexOf(s[..|s| - 1], c);
      assert s == s[..|s| - 1] + [s[|s| - 1]];
      if r.Some? then
        assert s[r.value + 1..] == s[..|s| - 1][r.value + 1..] + [s[|s| - 1]];
        r
      else r
  }

  /** The parts joined back with `c` between consecutive parts (`String.Join`). */
  function Join(parts: seq<string>, c: char): string
    requires |parts| > 0
  {
    if |parts| == 1 then parts[0] else parts[0] + [c] + Join(parts[1..], c)
  }

  /**
   * `s.Split(c)`: the maximal pieces of `s` between occurrences of `c`,
   * empty pieces included, so there is one more piece than there are `c`s.
   */
  function Split(s: string, c: char): (parts: seq<string>)
    ensures |parts| == multiset(s)[c] + 1
    ensures forall i :: 0 <= i < |parts| ==> c !in parts[i]
    ensures Join(parts, c) == s
    decreases |s|
  {
    match IndexOf(s, c)
    case None =>
      assert multiset(s)[c] == 0;
      [s]
    case Some(k) =>
      var rest := Split(s[k + 1..], c);
      assert s == s[..k] + [c] + s[k + 1..];
      assert multiset(s) == multiset(s[..k]) + multiset([c]) + multiset(s[k + 1..]);
      assert multiset(s[..k])[c] == 0;
      var parts := [s[..k]] + rest;
      assert parts[1..] == rest;
      parts
  }

  /** Splitting undoes joining, provided no part contains the separator. */
  lemma {:induction false} SplitJoin(parts: seq<string>, c: char)
    requires |parts| > 0
    requires forall i :: 0 <= i < |parts| ==> c !in parts[i]
    ensures Split(Join(parts, c), c) == parts
    decreases |parts|
  {
    if |parts| > 1 {
      SplitOfJoinCons(parts[0], parts[1..], c);
      SplitJoin(parts[1..], c);
      assert [parts[0]] + parts[1..] == parts;
    } else {
      assert IndexOf(parts[0], c).None?;
    }
  }

  /** The inductive step of `SplitJoin`: the first part comes off first. */
  lemma SplitOfJoinCons(head: string, rest: seq<string>, c: char)
    requires |rest| > 0 && c !in head
    ensures Split(Join([head] + rest, c), c) == [head] + Split(Join(rest, c), c)
  {
    var tail := Join(rest, c);
    var s := head + [c] + tail;
    assert Join([head] + rest, c) == s by {
      assert ([head] + rest)[1..] == rest;
    }
    IndexOfAfterPrefix(head, tail, c);
    SplitAtFirst(s, c, |head|);
    assert s[..|head|] == head;
    assert s[|head| + 1..] == tail;
  }

  /** One unfolding of `Split` at the first separator. */
  lemma SplitAtFirst(s: string, c: char, k: nat)
    requires IndexOf(s, c) == Some(k)
    ensures Split(s, c) == [s[..k]] + Split(s[k + 1..], c)
  {
  }

  /** The first `c` in `a + [c] + b` is the one after `a` when `a` has none. */
  lemma {:induction false} IndexOfAfterPrefix(a: string, b: string, c: char)
    requires c !in a
    ensures IndexOf(a + [c] + b, c) == Some(|a|)
    decreases |a|
  {
    if a != [] {
      assert (a + [c] + b)[1..] == a[1..] + [c] + b;
      IndexOfAfterPrefix(a[1..], b, c);
    }
  }

  /** The last `c` in `a + [c] + b` is the one before `b` when `b` has none. */
  lemma {:induction false} LastIndexOfBeforeSuffix(a: string, b: string, c: char)
    requires c !in b
    ensures LastIndexOf(a + [c] + b, c) == Some(|a|)
    decreases |b|
  {
    var s := a + [c] + b;
    if b != [] {
      assert s[..|s| - 1] == a + [c] + b[..|b| - 1];
      assert s[|s| - 1] == b[|b| - 1];
      LastIndexOfBeforeSuffix(a, b[..|b| - 1], c);
    }
  }

  /** `s` cut at its first `c` into the text before and the text after. */
  function SplitOnFirst(s: string, c: char): (r: Option<(string, string)>)
    ensures r.None? <==> c !in s
    ensures r.Some? ==> s == r.value.0 + [c] + r.value.1 && c !in r.value.0
  {
    match IndexOf(s, c)
    case None => None
    case Some(k) =>
      assert s == s[..k] + [c] + s[k + 1..];
      Some((s[..k], s[k + 1..]))
  }

  /** `s` cut at its last `c` into the text before and the text after. */
  function SplitOnLast(s: string, c: char): (r: Option<(string, string)>)
    ensures r.None? <==> c !in s
    ensures r.Some? ==> s == r.value.0 + [c] + r.value.1 && c !in r.value.1
  {
    match LastIndexOf(s, c)
    case None => None
    case Some(k) =>
      assert s == s[..k] + [c] + s[k + 1..];
      Some((s[..k], s[k + 1..]))
  }

  /** Cutting at the first separator recovers the two halves when the first half has none. */
  lemma SplitOnFirstOfJoined(a: string, b: string, c: char)
    requires c !in a
    ensures SplitOnFirst(a + [c] + b, c) == Some((a, b))
  {
    IndexOfAfterPrefix(a, b, c);
    var s := a + [c] + b;
    assert s[..|a|] == a && s[|a| + 1..] == b;
  }

  /** Cutting at the last separator recovers the two halves when the second half has none. */
  lemma SplitOnLastOfJoined(a: string, b: string, c: char)
    requires c !in b
    ensures SplitOnLast(a + [c] + b, c) == Some((a, b))
  {
    LastIndexOfBeforeSuffix(a, b, c);
    var s := a + [c] + b;
    assert s[..|a|] == a && s[|a| + 1..] == b;
  }
}
