/** The few operations of Go's `strings` package that the core relies on,
    for a one-character separator. */
module Strings {
  import opened Wrappers

  /** Position of the first occurrence of `c` in `s` (`strings.IndexByte`). */
  function IndexOf(s: string, c: char): (r: Option<nat>)
    ensures r.None? <==> c !in s
    ensures r.Some? ==> r.value < |s| && s[r.value] == c && c !in s[..r.value]
  {
    if |s| == 0 then None
    else if s[0] == c then Some(0)
    else match IndexOf(s[1..], c)
      case None => None
      case Some(i) => Some(i + 1)
  }

  /** `strings.Split(s, [sep])`: the pieces between separators; an input
      without a separator (the empty string included) is one piece. */
  function Split(s: string, sep: char): (parts: seq<string>)
    decreases |s|
  {
    match IndexOf(s, sep)
    case None => [s]
    case Some(i) => [s[..i]] + Split(s[i + 1..], sep)
  }

  /** `strings.Join(parts, [sep])`. */
  function Join(parts: seq<string>, sep: char): string
  {
    if |parts| == 0 then ""
    else if |parts| == 1 then parts[0]
    else parts[0] + [sep] + Join(parts[1..], sep)
  }

  /** No piece of a split contains the separator, and there is always at
      least one piece. */
  lemma {:induction false} SplitPieces(s: string, sep: char)
    ensures |Split(s, sep)| >= 1
    ensures forall k :: 0 <= k < |Split(s, sep)| ==> sep !in Split(s, sep)[k]
    decreases |s|
  {
    match IndexOf(s, sep)
    case None =>
    case Some(i) =>
      SplitPieces(s[i + 1..], sep);
      var rest := Split(s[i + 1..], sep);
      assert Split(s, sep) == [s[..i]] + rest;
      forall k | 0 <= k < |Split(s, sep)|
        ensures sep !in Split(s, sep)[k]
      {
        if k > 0 { assert Split(s, sep)[k] == rest[k - 1]; }
      }
  }

  /** Joining the pieces of a split gives back the original string. */
  lemma {:induction false} JoinSplit(s: string, sep: char)
    ensures Join(Split(s, sep), sep) == s
    decreases |s|
  {
    match IndexOf(s, sep)
    case None =>
    case Some(i) =>
      var rest := s[i + 1..];
      var tail := Split(rest, sep);
      JoinSplit(rest, sep);
      SplitPieces(rest, sep);
      var parts := [s[..i]] + tail;
      assert Split(s, sep) == parts;
      assert |parts| >= 2 && parts[0] == s[..i] && parts[1..] == tail;
      assert Join(parts, sep) == s[..i] + [sep] + Join(tail, sep);
      assert s == s[..i] + [s[i]] + rest;
  }

  /** The separator found first in `p + [sep] + t` is the one after `p`
      when `p` does not contain it. */
  lemma {:induction false} IndexOfAfterFree(p: string, t: string, sep: char)
    requires sep !in p
    ensures IndexOf(p + [sep] + t, sep) == Some(|p|)
    decreases |p|
  {
    var s := p + [sep] + t;
    if |p| > 0 {
      assert s[1..] == p[1..] + [sep] + t;
      IndexOfAfterFree(p[1..], t, sep);
    }
  }

  /** Splitting a join of separator-free pieces gives back the pieces. */
  lemma {:induction false} SplitJoin(parts: seq<string>, sep: char)
    requires |parts| >= 1
    requires forall k :: 0 <= k < |parts| ==> sep !in parts[k]
    ensures Split(Join(parts, sep), sep) == parts
    decreases |parts|
  {
    if |parts| == 1 {
      assert IndexOf(parts[0], sep).None?;
    } else {
      var t := Join(parts[1..], sep);
      var s := parts[0] + [sep] + t;
      IndexOfAfterFree(parts[0], t, sep);
      assert s[..|parts[0]|] == parts[0];
      assert s[|parts[0]| + 1..] == t;
      SplitJoin(parts[1..], sep);
      assert parts == [parts[0]] + parts[1..];
    }
  }
}
