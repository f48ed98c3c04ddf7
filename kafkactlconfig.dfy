/** The kafkactl emitter (internal/kafkactlconfig): a map from context
    name to the brokers of that context. */
module KafkactlConfig {
  import opened Wrappers
  import opened Internal

  datatype KafkactlContext = KafkactlContext(Brokers: seq<string>)

  datatype KafkactlConfig = KafkactlConfig(
    Contexts: map<string, KafkactlContext>,
    CurrentContext: string)

  datatype Config = Config(cfg: KafkactlConfig)

  /** The context map after writing the clusters of `s` in order, each
      under its display name, a later write replacing an earlier one. */
  function ContextsOf(s: seq<Cluster>): map<string, KafkactlContext>
  {
    if |s| == 0 then map[]
    else
      var c := s[|s| - 1];
      ContextsOf(s[..|s| - 1])[DisplayName(c) := KafkactlContext(c.Brokers)]
  }

  /** The display names of the clusters of `s`. */
  ghost function Names(s: seq<Cluster>): set<string>
  {
    set k | 0 <= k < |s| :: DisplayName(s[k])
  }

  /** Every display name occurs once. */
  ghost predicate DistinctNames(s: seq<Cluster>)
  {
    forall i, j :: 0 <= i < j < |s| ==> DisplayName(s[i]) != DisplayName(s[j])
  }

  /** No cluster after the `i`-th has the same display name. */
  ghost predicate LastWithName(s: seq<Cluster>, i: int)
    requires 0 <= i < |s|
  {
    forall j :: i < j < |s| ==> DisplayName(s[j]) != DisplayName(s[i])
  }

  /** The contexts are keyed by exactly the display names of the input. */
  lemma {:induction false} ContextsKeys(s: seq<Cluster>)
    ensures ContextsOf(s).Keys == Names(s)
    decreases |s|
  {
    if |s| > 0 {
      var init := s[..|s| - 1];
      ContextsKeys(init);
      assert Names(s) == Names(init) + {DisplayName(s[|s| - 1])} by {
        forall x | x in Names(s) ensures x in Names(init) + {DisplayName(s[|s| - 1])} {
          var k :| 0 <= k < |s| && DisplayName(s[k]) == x;
          if k < |init| { assert init[k] == s[k]; }
        }
        forall x | x in Names(init) ensures x in Names(s) {
          var k :| 0 <= k < |init| && DisplayName(init[k]) == x;
          assert s[k] == init[k];
        }
      }
    }
  }

  /** Last write wins: the context of a display name holds the brokers of
      the last cluster, in input order, that has that display name. */
  lemma {:induction false} ContextsLastWins(s: seq<Cluster>, i: int)
    requires 0 <= i < |s|
    requires LastWithName(s, i)
    ensures DisplayName(s[i]) in ContextsOf(s)
    ensures ContextsOf(s)[DisplayName(s[i])] == KafkactlContext(s[i].Brokers)
    decreases |s|
  {
    if i < |s| - 1 {
      var init := s[..|s| - 1];
      assert init[i] == s[i];
      forall j | i < j < |init| ensures DisplayName(init[j]) != DisplayName(init[i]) {
        assert init[j] == s[j];
      }
      ContextsLastWins(init, i);
    }
  }

  /** There are at most as many contexts as clusters, and exactly as many
      when the display names are distinct. */
  lemma {:induction false} ContextsSize(s: seq<Cluster>)
    ensures |ContextsOf(s)| <= |s|
    ensures DistinctNames(s) ==> |ContextsOf(s)| == |s|
    decreases |s|
  {
    if |s| > 0 {
      var init := s[..|s| - 1];
      var c := s[|s| - 1];
      ContextsSize(init);
      var m := ContextsOf(init);
      if DisplayName(c) in m {
        assert ContextsOf(s).Keys == m.Keys;
      } else {
        assert ContextsOf(s).Keys == m.Keys + {DisplayName(c)};
      }
      if DistinctNames(s) {
        assert DistinctNames(init) by {
          forall i, j | 0 <= i < j < |init| ensures DisplayName(init[i]) != DisplayName(init[j]) {
            assert init[i] == s[i] && init[j] == s[j];
          }
        }
        ContextsKeys(init);
        assert DisplayName(c) !in m;
      }
    }
  }

  /** `New`: the contexts written in input order, and no current context. */
  method New(clusters: seq<Cluster>) returns (r: Config)
    ensures r.cfg.Contexts == ContextsOf(clusters)
    ensures r.cfg.CurrentContext == ""
    ensures r.cfg.Contexts.Keys == Names(clusters)
    ensures forall i :: 0 <= i < |clusters| && LastWithName(clusters, i) ==>
      r.cfg.Contexts[DisplayName(clusters[i])] == KafkactlContext(clusters[i].Brokers)
  {
    var contexts: map<string, KafkactlContext> := map[];
    for i := 0 to |clusters|
      invariant contexts == ContextsOf(clusters[..i])
    {
      var c := clusters[i];
      var name := c.Name;
      if c.Alias != "" {
        name := c.Alias;
      }
      assert clusters[..i + 1][..i] == clusters[..i];
      contexts := contexts[name := KafkactlContext(c.Brokers)];
    }
    assert clusters[..|clusters|] == clusters;
    ContextsKeys(clusters);
    forall i | 0 <= i < |clusters| && LastWithName(clusters, i)
      ensures contexts[DisplayName(clusters[i])] == KafkactlContext(clusters[i].Brokers)
    {
      ContextsLastWins(clusters, i);
    }
    return Config(KafkactlConfig(contexts, ""));
  }

  /** Two clusters aliased to one display name leave one context, holding
      the brokers of the later cluster. */
  lemma CollisionKeepsLater(a: Cluster, b: Cluster)
    requires DisplayName(a) == DisplayName(b)
    ensures ContextsOf([a, b]) == map[DisplayName(b) := KafkactlContext(b.Brokers)]
  {
    assert [a, b][..1] == [a];
    assert [a][..0] == [];
    assert ContextsOf([a]) == map[DisplayName(a) := KafkactlContext(a.Brokers)];
  }

  /** `Config.Marshal` over a YAML encoder `encode` whose text is not
      modelled: the encoder's bytes on success; on failure no bytes and
      the encoder's error wrapped as "yaml encode: ...". */
  function Marshal(c: Config, encode: KafkactlConfig -> Result<string, Error>): (r: Result<string, Error>)
    ensures r.Success? <==> encode(c.cfg).Success?
    ensures r.Success? ==> r.value == encode(c.cfg).value
    ensures r.Failure? ==>
      && r.error == Wrapped("yaml encode", encode(c.cfg).error)
      && Message(r.error) == "yaml encode: " + Message(encode(c.cfg).error)
  {
    match encode(c.cfg)
    case Failure(e) => Failure(Wrapped("yaml encode", e))
    case Success(b) => Success(b)
  }
}
