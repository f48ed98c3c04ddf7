/** End-to-end scenarios proved on fixed directory answers: resolve,
    filter, build one emitter's value. */
module Scenarios {
  import opened Wrappers
  import opened Strings
  import opened Internal
  import opened Aws
  import Mskrc
  import KafConfig
  import KafkactlConfig

  const Prod := ClusterInfo("arn:prod-1", "prod-1", "3.5.1", Success("b1:9092,b2:9092"))
  const Staging := ClusterInfo("arn:staging", "staging", "3.5.1", Success("s1:9092"))

  lemma ProdBrokers()
    ensures Split("b1:9092,b2:9092", ',') == ["b1:9092", "b2:9092"]
  {
    SplitJoin(["b1:9092", "b2:9092"], ',');
    assert Join(["b1:9092", "b2:9092"], ',') == "b1:9092,b2:9092";
  }

  /** One cluster, no aliases, no `--cluster`: the kaf list has the single
      entry named after the cluster. */
  method KafScenario() returns (r: Result<KafConfig.Config, Error>)
    ensures r.Success?
    ensures r.value.cfg.Clusters == [KafConfig.KafCluster("prod-1", ["b1:9092", "b2:9092"], "3.5.1")]
  {
    var resolved := Mskrc.GetClusters(Success([Prod]), map[]);
    Mskrc.ResolveSuccess([Prod], map[]);
    ProdBrokers();
    var selected := Mskrc.SelectClusters(resolved.value, []);
    var cfg := KafConfig.New(selected);
    return Success(cfg);
  }

  /** The same cluster aliased "production": the kafkactl map has the one
      context "production". */
  method KafkactlScenario() returns (r: Result<KafkactlConfig.Config, Error>)
    ensures r.Success?
    ensures r.value.cfg.Contexts == map["production" := KafkactlConfig.KafkactlContext(["b1:9092", "b2:9092"])]
    ensures r.value.cfg.CurrentContext == ""
  {
    var aliases := map["prod-1" := "production"];
    var resolved := Mskrc.GetClusters(Success([Prod]), aliases);
    Mskrc.ResolveSuccess([Prod], aliases);
    ProdBrokers();
    var selected := Mskrc.SelectClusters(resolved.value, []);
    var cfg := KafkactlConfig.New(selected);
    assert selected[..0] == [];
    return Success(cfg);
  }

  /** `--cluster staging` over the resolved prod-1 and staging keeps only
      staging. */
  method FilterScenario() returns (selected: seq<Cluster>)
    ensures selected == [Cluster("staging", "", ["s1:9092"], "3.5.1")]
  {
    var prod := Cluster("prod-1", "", ["b1:9092", "b2:9092"], "3.5.1");
    var staging := Cluster("staging", "", ["s1:9092"], "3.5.1");
    var cs := [prod, staging];
    selected := Mskrc.SelectClusters(cs, ["staging"]);
    var keep := Mskrc.NameIncluded(["staging"]);
    assert cs[..1] == [prod];
    assert [prod][..0] == [];
    assert Mskrc.Filter([prod], keep) == [];
    assert Mskrc.Filter(cs, keep) == Mskrc.Filter([prod], keep) + [staging];
  }
}
