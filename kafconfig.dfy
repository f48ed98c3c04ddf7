/** The kaf emitter (internal/kafconfig): an ordered list of clusters in
    kaf's own configuration schema. */
module KafConfig {
  import opened Wrappers
  import opened Internal

  /** The fields of kaf's `config.Cluster` that the emitter sets. */
  datatype KafCluster = KafCluster(Name: string, Brokers: seq<string>, Version: string)

  /** The fields of kaf's `config.Config` that the emitter sets. */
  datatype KafConfig = KafConfig(Clusters: seq<KafCluster>)

  datatype Config = Config(cfg: KafConfig)

  /** `New`: one kaf cluster per input cluster, in input order and without
      deduplication, named by the alias when it is non-empty and by the
      raw name otherwise, with brokers and version copied. */
  method New(clusters: seq<Cluster>) returns (r: Config)
    ensures |r.cfg.Clusters| == |clusters|
    ensures forall i :: 0 <= i < |clusters| ==>
      var k := r.cfg.Clusters[i];
      && k.Name == (if clusters[i].Alias != "" then clusters[i].Alias else clusters[i].Name)
      && k.Brokers == clusters[i].Brokers
      && k.Version == clusters[i].Version
  {
    var clustercfgs: seq<KafCluster> := [];
    for i := 0 to |clusters|
      invariant |clustercfgs| == i
      invariant forall j :: 0 <= j < i ==>
        clustercfgs[j] == KafCluster(DisplayName(clusters[j]), clusters[j].Brokers, clusters[j].Version)
    {
      var c := clusters[i];
      var name := c.Name;
      if c.Alias != "" {
        name := c.Alias;
      }
      clustercfgs := clustercfgs + [KafCluster(name, c.Brokers, c.Version)];
    }
    return Config(KafConfig(clustercfgs));
  }

  /** `Config.Marshal` over a YAML encoder `encode` whose text is not
      modelled: the encoder's bytes on success; on failure no bytes and
      the encoder's error wrapped as "yaml encode: ...". */
  function Marshal(c: Config, encode: KafConfig -> Result<string, Error>): (r: Result<string, Error>)
    ensures r.Success? <==> encode(c.cfg).Success?
    ensures r.Success? ==> r.value == encode(c.cfg).value
    ensures r.Failure? ==>
      && r.error == Wrapped("yaml encode", encode(c.cfg).error)
      && Message(r.error) == "yaml encode: " + Message(encode(c.cfg).error)
  {
    match encode(c.cfg)
    case Failure(e) => Failure(Wrapped("yaml encode", e))
    case Success(b) => Success(b)
  }
}
