/** The older single-command program (main.go): it resolves clusters into
    its own record, where an alias replaces the name, and emits kaf's
    schema directly. */
module Legacy {
  import opened Wrappers
  import opened Strings
  import opened Aws
  import Internal
  import KafConfig
  import Mskrc

  /** The program's own `cluster` record. */
  datatype Cluster = Cluster(name: string, brokers: seq<string>, version: string)

  /** The name the old program records: the alias table's entry when there
      is one, even an empty one, else the raw cluster name. */
  function NameOf(aliases: map<string, string>, clusterName: string): string
  {
    if clusterName in aliases then aliases[clusterName] else clusterName
  }

  function Record(ci: ClusterInfo, aliases: map<string, string>, bootstrap: string): Cluster
  {
    Cluster(NameOf(aliases, ci.ClusterName), Split(bootstrap, ','), ci.KafkaVersion)
  }

  function Records(aliases: map<string, string>): (ClusterInfo, string) -> Cluster
  {
    (ci: ClusterInfo, bootstrap: string) => Record(ci, aliases, bootstrap)
  }

  function Resolve(infos: seq<ClusterInfo>, aliases: map<string, string>): Result<seq<Cluster>, Internal.Error>
  {
    ResolveAll(infos, Records(aliases))
  }

  /** `getClusters`: a failed listing is reported as such; otherwise the
      clusters are resolved in listing order, and the first failed lookup
      aborts with no cluster list. */
  method GetClusters(listing: Listing, aliases: map<string, string>) returns (r: Result<seq<Cluster>, Internal.Error>)
    ensures listing.Failure? ==> r == Failure(ListError(listing.error))
    ensures listing.Success? ==> r == Resolve(listing.value, aliases)
  {
    if listing.Failure? {
      return Failure(ListError(listing.error));
    }
    var infos := listing.value;
    var clusters: seq<Cluster> := [];
    for i := 0 to |infos|
      invariant ResolveAll(infos[..i], Records(aliases)) == Success(clusters)
    {
      var ci := infos[i];
      assert infos[..i + 1][..i] == infos[..i];
      if ci.Bootstrap.Failure? {
        FailureSticks(infos, Records(aliases), i + 1);
        return Failure(LookupError(ci));
      }
      var name := ci.ClusterName;
      if ci.ClusterName in aliases {
        name := aliases[ci.ClusterName];
      }
      clusters := clusters + [Cluster(name, Split(ci.Bootstrap.value, ','), ci.KafkaVersion)];
    }
    assert infos[..|infos|] == infos;
    return Success(clusters);
  }

  /** Resolution succeeds exactly when every lookup succeeded; then each
      listed cluster gives one record, in order, named by its alias entry
      when there is one (an empty alias included) and by its raw name
      otherwise. */
  lemma ResolveSuccess(infos: seq<ClusterInfo>, aliases: map<string, string>)
    ensures Resolve(infos, aliases).Success? <==>
      forall j :: 0 <= j < |infos| ==> infos[j].Bootstrap.Success?
    ensures Resolve(infos, aliases).Success? ==>
      var cs := Resolve(infos, aliases).value;
      && |cs| == |infos|
      && forall j :: 0 <= j < |infos| ==>
           && (infos[j].ClusterName in aliases ==> cs[j].name == aliases[infos[j].ClusterName])
           && (infos[j].ClusterName !in aliases ==> cs[j].name == infos[j].ClusterName)
           && cs[j].brokers == Split(infos[j].Bootstrap.value, ',')
           && cs[j].version == infos[j].KafkaVersion
  {
    ResolveAllSuccess(infos, Records(aliases));
  }

  /** A failed lookup aborts with the first failing cluster's error. */
  lemma ResolveFirstError(infos: seq<ClusterInfo>, aliases: map<string, string>, k: int)
    requires FirstFailure(infos, k)
    ensures Resolve(infos, aliases) == Failure(LookupError(infos[k]))
  {
    ResolveAllFirstError(infos, Records(aliases), k);
  }

  /** `newKafConfig`: one kaf cluster per record, in the same order, with
      the record's name, brokers and version. */
  method NewKafConfig(clusters: seq<Cluster>) returns (r: KafConfig.KafConfig)
    ensures |r.Clusters| == |clusters|
    ensures forall i :: 0 <= i < |clusters| ==>
      && r.Clusters[i].Name == clusters[i].name
      && r.Clusters[i].Brokers == clusters[i].brokers
      && r.Clusters[i].Version == clusters[i].version
  {
    var clustercfgs: seq<KafConfig.KafCluster> := [];
    for i := 0 to |clusters|
      invariant |clustercfgs| == i
      invariant forall j :: 0 <= j < i ==>
        clustercfgs[j] == KafConfig.KafCluster(clusters[j].name, clusters[j].brokers, clusters[j].version)
    {
      var c := clusters[i];
      clustercfgs := clustercfgs + [KafConfig.KafCluster(c.name, c.brokers, c.version)];
    }
    return KafConfig.KafConfig(clustercfgs);
  }

  /** The two programs resolve the same listing alike: both succeed or
      both fail, with the same error; and when no alias is empty, the old
      program's name is the display name the new kaf emitter uses. */
  lemma AgreesWithLayered(infos: seq<ClusterInfo>, aliases: map<string, string>)
    ensures Resolve(infos, aliases).Success? <==> Mskrc.Resolve(infos, aliases).Success?
    ensures Resolve(infos, aliases).Failure? ==>
      Mskrc.Resolve(infos, aliases).Failure? &&
      Resolve(infos, aliases).error == Mskrc.Resolve(infos, aliases).error
    ensures Resolve(infos, aliases).Success? ==>
      var legacy := Resolve(infos, aliases).value;
      var layered := Mskrc.Resolve(infos, aliases).value;
      && |legacy| == |layered|
      && forall j :: 0 <= j < |legacy| ==>
           && legacy[j].brokers == layered[j].Brokers
           && legacy[j].version == layered[j].Version
           && ((forall a :: a in aliases ==> aliases[a] != "") ==>
                 legacy[j].name == Internal.DisplayName(layered[j]))
  {
    ResolveSuccess(infos, aliases);
    Mskrc.ResolveSuccess(infos, aliases);
    if Resolve(infos, aliases).Failure? {
      var k := FirstFailing(infos);
      ResolveFirstError(infos, aliases, k);
      Mskrc.ResolveFirstError(infos, aliases, k);
    }
  }

  /** An empty alias separates the two programs: the old one names the
      cluster "", the new kaf emitter falls back to the raw name. */
  lemma EmptyAliasDiverges(ci: ClusterInfo, aliases: map<string, string>, bootstrap: string)
    requires ci.ClusterName in aliases && aliases[ci.ClusterName] == "" && ci.ClusterName != ""
    ensures Record(ci, aliases, bootstrap).name == ""
    ensures Internal.DisplayName(Mskrc.Record(ci, aliases, bootstrap)) == ci.ClusterName
  {
  }
}
