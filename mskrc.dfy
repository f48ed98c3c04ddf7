/** The layered program (cmd/mskrc): the generic filter, the `--cluster`
    filter step every subcommand applies, and the resolution of the
    directory's answers into `Internal.Cluster` records. */
module Mskrc {
  import opened Wrappers
  import opened Strings
  import opened Internal
  import opened Aws

  /** The elements of `s` that satisfy `f`, in their original order. */
  function Filter<T>(s: seq<T>, f: T -> bool): (r: seq<T>)
    ensures |r| <= |s|
    ensures forall k :: 0 <= k < |r| ==> f(r[k])
  {
    if |s| == 0 then []
    else Filter(s[..|s| - 1], f) + (if f(s[|s| - 1]) then [s[|s| - 1]] else [])
  }

  /** An element is kept exactly when it occurs in the input and satisfies
      the predicate. */
  lemma {:induction false} FilterMembership<T>(s: seq<T>, f: T -> bool, x: T)
    ensures x in Filter(s, f) <==> x in s && f(x)
    decreases |s|
  {
    if |s| > 0 {
      var init := s[..|s| - 1];
      FilterMembership(init, f, x);
      assert s == init + [s[|s| - 1]];
    }
  }

  /** Filtering distributes over concatenation: the relative order of the
      kept elements is that of the input. */
  lemma {:induction false} FilterAppend<T>(a: seq<T>, b: seq<T>, f: T -> bool)
    ensures Filter(a + b, f) == Filter(a, f) + Filter(b, f)
    decreases |b|
  {
    if |b| == 0 {
      assert a + b == a;
    } else {
      var binit, last := b[..|b| - 1], b[|b| - 1];
      assert (a + b)[..|a + b| - 1] == a + binit;
      assert (a + b)[|a + b| - 1] == last;
      FilterAppend(a, binit, f);
    }
  }

  /** A predicate every element satisfies keeps the whole input. */
  lemma {:induction false} FilterKeepsAll<T>(s: seq<T>, f: T -> bool)
    requires forall k :: 0 <= k < |s| ==> f(s[k])
    ensures Filter(s, f) == s
    decreases |s|
  {
    if |s| > 0 {
      FilterKeepsAll(s[..|s| - 1], f);
    }
  }

  /** `slicesFilter`: appends each element that satisfies `f`. */
  method SlicesFilter<T>(s: seq<T>, f: T -> bool) returns (r: seq<T>)
    ensures r == Filter(s, f)
  {
    r := [];
    for i := 0 to |s|
      invariant r == Filter(s[..i], f)
    {
      assert s[..i + 1][..i] == s[..i];
      if f(s[i]) {
        r := r + [s[i]];
      }
    }
    assert s[..|s|] == s;
  }

  /** The predicate the subcommands hand to `slicesFilter`: the raw name
      (never the alias) is one of the `--cluster` values. */
  function NameIncluded(wanted: seq<string>): Cluster -> bool
  {
    (c: Cluster) => c.Name in wanted
  }

  /** The clusters a subcommand emits: all of them when no `--cluster`
      was given, otherwise those whose raw name was given. */
  function Selected(clusters: seq<Cluster>, wanted: seq<string>): seq<Cluster>
  {
    if |wanted| == 0 then clusters else Filter(clusters, NameIncluded(wanted))
  }

  /** The filter step of the kaf, kcl and kafkactl subcommands. */
  method SelectClusters(clusters: seq<Cluster>, wanted: seq<string>) returns (r: seq<Cluster>)
    ensures r == Selected(clusters, wanted)
  {
    r := clusters;
    if |wanted| != 0 {
      r := SlicesFilter(clusters, NameIncluded(wanted));
    }
  }

  /** With no `--cluster` values nothing is dropped; otherwise exactly the
      clusters whose raw name is listed survive, in input order. */
  lemma SelectedSpec(clusters: seq<Cluster>, wanted: seq<string>)
    ensures |wanted| == 0 ==> Selected(clusters, wanted) == clusters
    ensures |wanted| != 0 ==> forall c ::
      c in Selected(clusters, wanted) <==> c in clusters && c.Name in wanted
  {
    if |wanted| != 0 {
      forall c ensures c in Selected(clusters, wanted) <==> c in clusters && c.Name in wanted {
        FilterMembership(clusters, NameIncluded(wanted), c);
      }
    }
  }

  /** Selection commutes with concatenation, so it never reorders. */
  lemma SelectedAppend(a: seq<Cluster>, b: seq<Cluster>, wanted: seq<string>)
    ensures Selected(a + b, wanted) == Selected(a, wanted) + Selected(b, wanted)
  {
    if |wanted| != 0 { FilterAppend(a, b, NameIncluded(wanted)); }
  }

  /** `alias, _ := aliases[name]`: the zero string when there is no entry. */
  function AliasOf(aliases: map<string, string>, name: string): string
  {
    if name in aliases then aliases[name] else ""
  }

  /** The record built for a cluster whose lookup answered `bootstrap`. */
  function Record(ci: ClusterInfo, aliases: map<string, string>, bootstrap: string): Cluster
  {
    Cluster(ci.ClusterName, AliasOf(aliases, ci.ClusterName), Split(bootstrap, ','), ci.KafkaVersion)
  }

  /** The record builder `getClusters` applies to each listed cluster. */
  function Records(aliases: map<string, string>): (ClusterInfo, string) -> Cluster
  {
    (ci: ClusterInfo, bootstrap: string) => Record(ci, aliases, bootstrap)
  }

  /** The resolved clusters for a successful listing. */
  function Resolve(infos: seq<ClusterInfo>, aliases: map<string, string>): Result<seq<Cluster>, Error>
  {
    ResolveAll(infos, Records(aliases))
  }

  /** `getClusters`: a failed listing is reported as such; otherwise the
      clusters are resolved one after the other, and the first failed
      lookup aborts with no cluster list. */
  method GetClusters(listing: Listing, aliases: map<string, string>) returns (r: Result<seq<Cluster>, Error>)
    ensures listing.Failure? ==> r == Failure(ListError(listing.error))
    ensures listing.Success? ==> r == Resolve(listing.value, aliases)
  {
    if listing.Failure? {
      return Failure(ListError(listing.error));
    }
    var infos := listing.value;
    var clusters: seq<Cluster> := [];
    for i := 0 to |infos|
      invariant ResolveAll(infos[..i], Records(aliases)) == Success(clusters)
    {
      var ci := infos[i];
      assert infos[..i + 1][..i] == infos[..i];
      if ci.Bootstrap.Failure? {
        FailureSticks(infos, Records(aliases), i + 1);
        return Failure(LookupError(ci));
      }
      var name := ci.ClusterName;
      var alias := AliasOf(aliases, name);
      clusters := clusters + [Cluster(name, alias, Split(ci.Bootstrap.value, ','), ci.KafkaVersion)];
    }
    assert infos[..|infos|] == infos;
    return Success(clusters);
  }

  /** Resolution succeeds exactly when every lookup succeeded, and then
      holds one record per listed cluster, in listing order, with the raw
      name, the alias table's entry (or "" when there is none) and the
      split broker string. */
  lemma ResolveSuccess(infos: seq<ClusterInfo>, aliases: map<string, string>)
    ensures Resolve(infos, aliases).Success? <==>
      forall j :: 0 <= j < |infos| ==> infos[j].Bootstrap.Success?
    ensures Resolve(infos, aliases).Success? ==>
      var cs := Resolve(infos, aliases).value;
      && |cs| == |infos|
      && forall j :: 0 <= j < |infos| ==>
           && cs[j].Name == infos[j].ClusterName
           && cs[j].Alias == (if infos[j].ClusterName in aliases then aliases[infos[j].ClusterName] else "")
           && cs[j].Brokers == Split(infos[j].Bootstrap.value, ',')
           && cs[j].Version == infos[j].KafkaVersion
  {
    ResolveAllSuccess(infos, Records(aliases));
  }

  /** A failed lookup is reported with the first failing cluster. */
  lemma ResolveFirstError(infos: seq<ClusterInfo>, aliases: map<string, string>, k: int)
    requires FirstFailure(infos, k)
    ensures Resolve(infos, aliases) == Failure(LookupError(infos[k]))
  {
    ResolveAllFirstError(infos, Records(aliases), k);
  }

  /** Every resolved broker list comes from the bootstrap string: no
      endpoint contains a comma, there is at least one, and joining them
      with commas gives the string back. */
  lemma ResolvedBrokers(infos: seq<ClusterInfo>, aliases: map<string, string>, j: int)
    requires Resolve(infos, aliases).Success? && 0 <= j < |infos|
    ensures infos[j].Bootstrap.Success? && |Resolve(infos, aliases).value| == |infos|
    ensures var bs := Resolve(infos, aliases).value[j].Brokers;
      && |bs| >= 1
      && (forall k :: 0 <= k < |bs| ==> ',' !in bs[k])
      && Join(bs, ',') == infos[j].Bootstrap.value
  {
    ResolveSuccess(infos, aliases);
    SplitPieces(infos[j].Bootstrap.value, ',');
    JoinSplit(infos[j].Bootstrap.value, ',');
  }
}
