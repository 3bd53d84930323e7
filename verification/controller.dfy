/**
 * One reconciliation pass: fetch the nodes and the pods, build the census,
 * reconcile every node, then report the first failure in node order.
 */
module Controller {
  import opened Wrappers
  import opened Resources
  import opened Census
  import opened Taints
  import opened Reconcile

  /** The first failure in `outcomes`, or success when none failed. */
  function FirstFailure<E>(outcomes: seq<Outcome<E>>): (r: Outcome<E>)
    ensures r.Pass? <==> forall i :: 0 <= i < |outcomes| ==> outcomes[i].Pass?
    ensures r.Fail? ==> exists i :: 0 <= i < |outcomes| && outcomes[i] == r
                                    && forall j :: 0 <= j < i ==> outcomes[j].Pass?
  {
    if outcomes == [] then Pass
    else if outcomes[0].Fail? then outcomes[0]
    else
      var r := FirstFailure(outcomes[1..]);
      assert forall i :: 1 <= i < |outcomes| ==> outcomes[i] == outcomes[1..][i - 1];
      r
  }

  /** Each node's result: the store's reply when a patch was issued, success otherwise. */
  function NodeOutcomes(issued: seq<Option<Patch>>, replies: seq<Outcome<Error>>): (outcomes: seq<Outcome<Error>>)
    requires |issued| == |replies|
    ensures |outcomes| == |issued|
    ensures forall i :: 0 <= i < |issued| ==> outcomes[i] == if issued[i].Some? then replies[i] else Pass
  {
    seq(|issued|, i requires 0 <= i < |issued| => if issued[i].Some? then replies[i] else Pass)
  }

  /**
   * The pass of `main`. The two list calls are given as their results, and
   * `replies[i]` is the store's answer to the patch of the i-th node, used only
   * when that node is patched. Every node is reconciled before the first
   * failure, in node order, is returned.
   */
  method RunPass(nodesFetch: Result<seq<Node>, Error>, podsFetch: Result<seq<Pod>, Error>,
                 replies: seq<Outcome<Error>>)
    returns (result: Outcome<Error>, issued: seq<Option<Patch>>)
    requires nodesFetch.Success? ==> |replies| == |nodesFetch.value|
    requires nodesFetch.Success? ==> forall i :: 0 <= i < |nodesFetch.value| ==> WellFormed(nodesFetch.value[i])
    requires podsFetch.Success? ==> CensusFits(podsFetch.value)
    ensures nodesFetch.Failure? || podsFetch.Failure? ==>
              issued == [] && result.Fail?
              && ((nodesFetch.Failure? && result.error == nodesFetch.error)
                  || (podsFetch.Failure? && result.error == podsFetch.error))
    ensures nodesFetch.Success? && podsFetch.Success? ==>
              |issued| == |nodesFetch.value|
              && (forall i :: 0 <= i < |nodesFetch.value| ==>
                    WellFormed(nodesFetch.value[i]) &&
                    issued[i] == Plan(nodesFetch.value[i],
                                      LoadByte(podsFetch.value, nodesFetch.value[i].metadata.name.value)))
              && result == FirstFailure(NodeOutcomes(issued, replies))
  {
    if nodesFetch.Failure? {
      return Fail(nodesFetch.error), [];
    }
    if podsFetch.Failure? {
      return Fail(podsFetch.error), [];
    }
    var nodes, pods := nodesFetch.value, podsFetch.value;
    var nodeMap := NodeVolumeCounts(pods);

    var results: seq<Outcome<Error>> := [];
    issued := [];
    for i := 0 to |nodes|
      invariant |results| == |issued| == i
      invariant forall k :: 0 <= k < i ==>
                  issued[k] == Plan(nodes[k], LoadByte(pods, nodes[k].metadata.name.value))
      invariant forall k :: 0 <= k < i ==> results[k] == if issued[k].Some? then replies[k] else Pass
    {
      var node := nodes[i];
      var volumeCount := CountOrZero(nodeMap, node.metadata.name.value);
      CensusLookup(pods, nodeMap, node.metadata.name.value);
      var r, p := ReconcileNode(node, volumeCount, replies[i]);
      results, issued := results + [r], issued + [p];
    }
    assert results == NodeOutcomes(issued, replies);

    for i := 0 to |results|
      invariant FirstFailure(results[i..]) == FirstFailure(results)
    {
      if results[i].Fail? {
        return results[i], issued;
      }
      assert results[i..][1..] == results[i + 1..];
    }
    assert results[|results|..] == [];
    result := Pass;
  }

  /** The pass fails exactly when some node was patched and the store refused that patch. */
  lemma PassFailsIff(issued: seq<Option<Patch>>, replies: seq<Outcome<Error>>)
    requires |issued| == |replies|
    ensures FirstFailure(NodeOutcomes(issued, replies)).Fail?
            <==> exists i :: 0 <= i < |issued| && issued[i].Some? && replies[i].Fail?
  {
    var outcomes := NodeOutcomes(issued, replies);
    if FirstFailure(outcomes).Fail? {
      var i :| 0 <= i < |outcomes| && outcomes[i].Fail?;
      assert issued[i].Some? && replies[i].Fail?;
    }
  }
}
