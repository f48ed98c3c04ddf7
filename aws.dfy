/** What the cloud directory answers, as plain input values. The calls
    themselves (`ListClusters`, `GetBootstrapBrokers`) are not modelled;
    their answers are given to the resolvers. */
module Aws {
  import opened Wrappers
  import opened Internal

  /** One entry of the cluster listing, together with the answer of the
      bootstrap-broker lookup made for it: the comma-separated broker
      string, or the SDK's error. */
  datatype ClusterInfo = ClusterInfo(
    ClusterArn: string,
    ClusterName: string,
    KafkaVersion: string,
    Bootstrap: Result<string, Error>)

  /** The answer of the listing call. */
  type Listing = Result<seq<ClusterInfo>, Error>

  /** `k` is the first cluster whose broker lookup failed. */
  ghost predicate FirstFailure(infos: seq<ClusterInfo>, k: int)
  {
    && 0 <= k < |infos|
    && infos[k].Bootstrap.Failure?
    && forall j :: 0 <= j < k ==> infos[j].Bootstrap.Success?
  }

  /** The index of the first failed lookup, when there is one. */
  function FirstFailing(infos: seq<ClusterInfo>): (k: int)
    requires exists j :: 0 <= j < |infos| && infos[j].Bootstrap.Failure?
    ensures FirstFailure(infos, k)
  {
    if infos[0].Bootstrap.Failure? then 0
    else
      assert exists j :: 0 <= j < |infos[1..]| && infos[1..][j].Bootstrap.Failure? by {
        var j :| 0 <= j < |infos| && infos[j].Bootstrap.Failure?;
        assert infos[1..][j - 1] == infos[j];
      }
      1 + FirstFailing(infos[1..])
  }

  /** The corrected error for a failed lookup, naming the cluster by its
      ARN; the model's `getClusters` returns it. The code as written
      builds `LookupErrorAsWritten`. */
  function LookupError(ci: ClusterInfo): Error
    requires ci.Bootstrap.Failure?
  {
    Wrapped("arn: " + ci.ClusterArn, ci.Bootstrap.error)
  }

  /** The corrected message names the cluster by its ARN, ahead of the
      SDK's own message. */
  lemma LookupErrorNamesArn(ci: ClusterInfo)
    requires ci.Bootstrap.Failure?
    ensures Message(LookupError(ci)) == "arn: " + ci.ClusterArn + ": " + Message(ci.Bootstrap.error)
  {
  }

  /** The error as the code builds it: `ClusterArn` is a `*string`, and
      `%v` of a pointer prints its address (`pointerText`, "0x..."), not
      the ARN it points to. */
  function LookupErrorAsWritten(ci: ClusterInfo, pointerText: string): Error
    requires ci.Bootstrap.Failure?
  {
    Wrapped("arn: " + pointerText, ci.Bootstrap.error)
  }

  /** The message printed names an address, not the ARN: when the address
      text starts with "0x" and the ARN does not, the two messages differ. */
  lemma AsWrittenLosesArn(ci: ClusterInfo, pointerText: string)
    requires ci.Bootstrap.Failure?
    requires |pointerText| >= 2 && pointerText[..2] == "0x"
    requires |ci.ClusterArn| >= 2 && ci.ClusterArn[..2] != "0x"
    ensures Message(LookupErrorAsWritten(ci, pointerText)) != Message(LookupError(ci))
  {
    var tail := ": " + Message(ci.Bootstrap.error);
    var bad := "arn: " + pointerText + tail;
    var good := "arn: " + ci.ClusterArn + tail;
    assert Message(LookupErrorAsWritten(ci, pointerText)) == bad;
    assert Message(LookupError(ci)) == good;
    assert bad[5..7] == pointerText[..2];
    assert good[5..7] == ci.ClusterArn[..2];
  }

  /** The error `getClusters` returns when the listing itself failed. */
  function ListError(e: Error): Error
  {
    Wrapped("unable to list clusters", e)
  }

  /** The loop of `getClusters`: one record per listed cluster, built by
      `build` from the cluster and its broker string, in listing order; or
      the error of the first lookup that failed. */
  function ResolveAll<R>(infos: seq<ClusterInfo>, build: (ClusterInfo, string) -> R): Result<seq<R>, Error>
  {
    if |infos| == 0 then Success([])
    else
      var ci := infos[|infos| - 1];
      match ResolveAll(infos[..|infos| - 1], build)
      case Failure(e) => Failure(e)
      case Success(rs) =>
        match ci.Bootstrap
        case Failure(_) => Failure(LookupError(ci))
        case Success(b) => Success(rs + [build(ci, b)])
  }

  /** Once a prefix fails, the whole listing fails with the same error. */
  lemma {:induction false} FailureSticks<R>(infos: seq<ClusterInfo>, build: (ClusterInfo, string) -> R, n: nat)
    requires n <= |infos|
    requires ResolveAll(infos[..n], build).Failure?
    ensures ResolveAll(infos, build) == ResolveAll(infos[..n], build)
    decreases |infos| - n
  {
    if n < |infos| {
      var m := |infos| - 1;
      assert infos[..m][..n] == infos[..n];
      FailureSticks(infos[..m], build, n);
    } else {
      assert infos[..n] == infos;
    }
  }

  /** Resolution succeeds exactly when every lookup succeeded, and then
      holds one record per listed cluster, in listing order. */
  lemma {:induction false} ResolveAllSuccess<R>(infos: seq<ClusterInfo>, build: (ClusterInfo, string) -> R)
    ensures ResolveAll(infos, build).Success? <==>
      forall j :: 0 <= j < |infos| ==> infos[j].Bootstrap.Success?
    ensures ResolveAll(infos, build).Success? ==>
      var rs := ResolveAll(infos, build).value;
      && |rs| == |infos|
      && forall j :: 0 <= j < |infos| ==> rs[j] == build(infos[j], infos[j].Bootstrap.value)
    decreases |infos|
  {
    if |infos| > 0 {
      var init := infos[..|infos| - 1];
      ResolveAllSuccess(init, build);
      assert forall j :: 0 <= j < |init| ==> init[j] == infos[j];
    }
  }

  /** The error reported is that of the first cluster whose lookup failed. */
  lemma ResolveAllFirstError<R>(infos: seq<ClusterInfo>, build: (ClusterInfo, string) -> R, k: int)
    requires FirstFailure(infos, k)
    ensures ResolveAll(infos, build) == Failure(LookupError(infos[k]))
  {
    var pre := infos[..k];
    ResolveAllSuccess(pre, build);
    assert infos[..k + 1][..k] == pre;
    FailureSticks(infos, build, k + 1);
  }
}
