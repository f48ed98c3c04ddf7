/** The kcl emitter (internal/kclconfig): one TOML document per cluster,
    headed by a comment line naming the cluster. */
module KclConfig {
  import opened Wrappers
  import opened Strings
  import opened Internal

  /** The request timeout every document carries, in milliseconds. */
  const TimeoutMillis: int := 10000

  /** The fields of kcl's `client.Cfg` that the emitter sets. */
  datatype Cfg = Cfg(SeedBrokers: seq<string>, TimeoutMillis: int)

  /** One document: the kcl settings and the cluster they were made from. */
  datatype Config = Config(cfg: Cfg, cluster: Cluster)

  /** `New`: one document per input cluster, in input order, each keeping
      its cluster unchanged, seeded with the cluster's brokers and carrying
      the fixed timeout. */
  method New(clusters: seq<Cluster>) returns (configs: seq<Config>)
    ensures |configs| == |clusters|
    ensures forall i :: 0 <= i < |clusters| ==>
      && configs[i].cluster == clusters[i]
      && configs[i].cfg.SeedBrokers == clusters[i].Brokers
      && configs[i].cfg.TimeoutMillis == 10000
  {
    configs := [];
    for i := 0 to |clusters|
      invariant |configs| == i
      invariant forall j :: 0 <= j < i ==>
        configs[j] == Config(Cfg(clusters[j].Brokers, TimeoutMillis), clusters[j])
    {
      var c := clusters[i];
      configs := configs + [Config(Cfg(c.Brokers, TimeoutMillis), c)];
    }
  }

  /** The comment line that heads a document. */
  function Preamble(c: Cluster): string
  {
    if c.Alias == "" then "# name: " + c.Name
    else "# name: " + c.Name + ", alias: " + c.Alias
  }

  /** `Config.Marshal` over a TOML encoder `encode` whose text is not
      modelled: the preamble, a newline, then the encoded settings; when
      encoding fails, no bytes and the encoder's error unwrapped. */
  method Marshal(c: Config, encode: Cfg -> Result<string, Error>) returns (r: Result<string, Error>)
    ensures encode(c.cfg).Failure? ==> r == Failure(encode(c.cfg).error)
    ensures encode(c.cfg).Success? ==> r.Success?
    ensures r.Success? ==> r.value == Preamble(c.cluster) + "\n" + encode(c.cfg).value
    ensures encode(c.cfg).Success? && c.cluster.Alias == "" ==>
      r.value == "# name: " + c.cluster.Name + "\n" + encode(c.cfg).value
    ensures encode(c.cfg).Success? && c.cluster.Alias != "" ==>
      r.value == "# name: " + c.cluster.Name + ", alias: " + c.cluster.Alias + "\n" + encode(c.cfg).value
  {
    var buf: string := "";
    var preamble := "# name: " + c.cluster.Name;
    if c.cluster.Alias != "" {
      preamble := "# name: " + c.cluster.Name + ", alias: " + c.cluster.Alias;
    }
    buf := buf + preamble + "\n";
    var encoded := encode(c.cfg);
    if encoded.Failure? {
      return Failure(encoded.error);
    }
    buf := buf + encoded.value;
    return Success(buf);
  }

  /** When neither name nor alias spans lines, the first line of a
      document is its preamble and everything after it is the body. */
  lemma FirstLineIsPreamble(c: Cluster, body: string)
    requires '\n' !in c.Name && '\n' !in c.Alias
    ensures var doc := Preamble(c) + "\n" + body;
      && IndexOf(doc, '\n') == Some(|Preamble(c)|)
      && doc[..|Preamble(c)|] == Preamble(c)
      && doc[|Preamble(c)| + 1..] == body
  {
    var p := Preamble(c);
    assert '\n' !in p by {
      if c.Alias == "" {
        assert p == "# name: " + c.Name;
      } else {
        assert p == "# name: " + c.Name + ", alias: " + c.Alias;
      }
    }
    IndexOfAfterFree(p, body, '\n');
    var doc := p + "\n" + body;
    assert doc == p + ['\n'] + body;
  }
}
