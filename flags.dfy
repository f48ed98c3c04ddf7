/** The two repeatable command-line flag values: `--alias cluster:alias`
    (a `pairFlag`, a map updated in place) and `--cluster name` (a
    `sliceFlag`, a list appended through a pointer). Both programs define
    `pairFlag` with the same code. */
module Flags {
  import opened Wrappers
  import opened Strings
  import opened Internal

  /** `strings.SplitN(value, ":", 2)` when it yields two pieces: the text
      before the first colon and everything after it; None when there is
      no colon (SplitN then yields a single piece). */
  function SplitPair(value: string): Option<(string, string)>
  {
    match IndexOf(value, ':')
    case None => None
    case Some(i) => Some((value[..i], value[i + 1..]))
  }

  /** A value splits exactly when it has a colon; the key has no colon and
      key, colon and alias spell the value again. */
  lemma SplitPairSpec(value: string)
    ensures SplitPair(value).None? <==> ':' !in value
    ensures SplitPair(value).Some? ==>
      var (k, v) := SplitPair(value).value;
      ':' !in k && k + ":" + v == value
  {
    match IndexOf(value, ':')
    case None =>
    case Some(i) =>
      assert value == value[..i] + [value[i]] + value[i + 1..];
  }

  /** Splitting happens at the first colon only: any later colon stays in
      the alias. */
  lemma SplitPairFirstColon(k: string, v: string)
    requires ':' !in k
    ensures SplitPair(k + ":" + v) == Some((k, v))
  {
    IndexOfAfterFree(k, v, ':');
    var s := k + ":" + v;
    assert s == k + [':'] + v;
    assert s[..|k|] == k && s[|k| + 1..] == v;
  }

  /** For example, `a:b:c` maps key `a` to `b:c`. */
  lemma SplitPairExample()
    ensures SplitPair("a:b:c") == Some(("a", "b:c"))
  {
    SplitPairFirstColon("a", "b:c");
    assert "a" + ":" + "b:c" == "a:b:c";
  }

  /** The `--alias` table. */
  class PairFlag {
    var pairs: map<string, string>

    /** `make(pairFlag)`. */
    constructor ()
      ensures pairs == map[]
    {
      pairs := map[];
    }

    /** `pairFlag.Set`: a value without a colon is refused and the table
        stays as it was; otherwise the key is (re)bound to the alias, the
        later binding replacing an earlier one and no other key changing. */
    method Set(value: string) returns (result: Outcome<Error>)
      modifies this
      ensures ':' !in value ==> result == Fail(InvalidPair(value)) && pairs == old(pairs)
      ensures ':' in value ==> result == Pass && SplitPair(value).Some?
      ensures SplitPair(value).Some? ==>
        var (k, v) := SplitPair(value).value;
        && k in pairs && pairs[k] == v
        && pairs.Keys == old(pairs).Keys + {k}
        && forall other :: other in old(pairs) && other != k ==> pairs[other] == old(pairs)[other]
    {
      SplitPairSpec(value);
      var kv := SplitPair(value);
      if kv.None? {
        return Fail(InvalidPair(value));
      }
      var (k, v) := kv.value;
      pairs := pairs[k := v];
      return Pass;
    }
  }

  ghost predicate NoDuplicates<T>(s: seq<T>)
  {
    forall i, j :: 0 <= i < j < |s| ==> s[i] != s[j]
  }

  /** What one `sliceFlag.Set` does to the list: append only when absent. */
  function AddUnique(values: seq<string>, value: string): seq<string>
  {
    if value in values then values else values + [value]
  }

  /** The list made by giving the values of `vs`, in order, to
      `sliceFlag.Set` starting from the empty list. */
  function Collect(vs: seq<string>): seq<string>
  {
    if |vs| == 0 then [] else AddUnique(Collect(vs[..|vs| - 1]), vs[|vs| - 1])
  }

  /** Position of the first occurrence of `x` in `vs`. */
  function FirstIndex(vs: seq<string>, x: string): (i: nat)
    requires x in vs
    ensures i < |vs| && vs[i] == x && x !in vs[..i]
  {
    if vs[0] == x then 0 else 1 + FirstIndex(vs[1..], x)
  }

  lemma {:induction false} FirstIndexExtend(vs: seq<string>, v: string, x: string)
    requires x in vs
    ensures x in vs + [v] && FirstIndex(vs + [v], x) == FirstIndex(vs, x)
  {
    var i := FirstIndex(vs, x);
    assert (vs + [v])[i] == x;
    assert (vs + [v])[..i] == vs[..i];
  }

  /** The collected list holds every given value exactly once, and in the
      order of their first occurrences. */
  lemma {:induction false} CollectSpec(vs: seq<string>)
    ensures NoDuplicates(Collect(vs))
    ensures forall x :: x in Collect(vs) <==> x in vs
    ensures forall i, j :: 0 <= i < j < |Collect(vs)| ==>
      FirstIndex(vs, Collect(vs)[i]) < FirstIndex(vs, Collect(vs)[j])
    decreases |vs|
  {
    if |vs| > 0 {
      var init, v := vs[..|vs| - 1], vs[|vs| - 1];
      assert vs == init + [v];
      CollectSpec(init);
      var c := Collect(init);
      forall x | x in init ensures x in vs && FirstIndex(vs, x) == FirstIndex(init, x) {
        FirstIndexExtend(init, v, x);
      }
      if v !in c {
        assert v !in init;
        assert FirstIndex(vs, v) == |init|;
        forall i | 0 <= i < |c| ensures FirstIndex(vs, c[i]) < |init| {
          assert c[i] in init;
        }
      }
    }
  }

  /** The `--cluster` list. */
  class SliceFlag {
    var values: seq<string>

    ghost predicate Valid()
      reads this
    {
      NoDuplicates(values)
    }

    /** The nil slice a `var sliceFlag` starts as. */
    constructor ()
      ensures Valid() && values == []
    {
      values := [];
    }

    /** `sliceFlag.Set`: appends the value unless it is already present;
        never fails. */
    method Set(value: string) returns (result: Outcome<Error>)
      requires Valid()
      modifies this
      ensures Valid()
      ensures result == Pass
      ensures values == AddUnique(old(values), value)
      ensures old(values) <= values && value in values
    {
      if value !in values {
        values := values + [value];
      }
      return Pass;
    }

    /** `sliceFlag.String`: the values joined with commas (see
        `Strings.SplitJoin` for when splitting gives them back). */
    function String(): string
      reads this
    {
      Join(values, ',')
    }
  }

  /** `sliceFlag.String` is undone by splitting on commas, when the list is
      non-empty and no value contains a comma. */
  lemma StringRoundTrip(flag: SliceFlag)
    requires |flag.values| >= 1
    requires forall k :: 0 <= k < |flag.values| ==> ',' !in flag.values[k]
    ensures Split(flag.String(), ',') == flag.values
  {
    SplitJoin(flag.values, ',');
  }
}
