/**
 * The per-node decision: a node should be tainted exactly when its volume
 * count has reached its limit, and a patch is issued only when that differs
 * from whether it is tainted now.
 */
module Reconcile {
  import opened Wrappers
  import opened Resources
  import opened DecimalU8
  import opened Limits
  import opened Taints

  /**
   * The level-triggered target state. A limit of 0 (an annotation of `"0"`)
   * taints every node, and a saturated count of 255 reaches every limit.
   */
  function ShouldBeTainted(volumeCount: u8, limit: u8): (tainted: bool)
    ensures limit == 0 ==> tainted
    ensures volumeCount == 255 ==> tainted
    ensures tainted <==> volumeCount >= limit
  {
    volumeCount >= limit
  }

  /** The patch `reconcile_node` issues for `node`, or `None` when it issues none. */
  function Plan(node: Node, volumeCount: u8): (patch: Option<Patch>)
    requires WellFormed(node)
    ensures patch.Some? <==> ShouldBeTainted(volumeCount, LimitForNode(node)) != NodeHasTaint(node)
    ensures patch.Some? ==> patch.value.nodeName == node.metadata.name.value
  {
    var limit := LimitForNode(node);
    var tainted := NodeHasTaint(node);
    if volumeCount >= limit then
      if !tainted then Some(Patch(node.metadata.name.value, Some(WithControllerTaint(ExistingTaints(node)))))
      else None
    else if tainted then Some(UntaintNode(node))
    else None
  }

  /**
   * `reconcile_node`: decide, and patch when the decision differs from the
   * node's state. `reply` is the store's answer to that patch (or the encoding
   * failure); when nothing is patched the result is success.
   */
  method ReconcileNode(node: Node, volumeCount: u8, reply: Outcome<Error>)
    returns (result: Outcome<Error>, issued: Option<Patch>)
    requires WellFormed(node)
    ensures issued == Plan(node, volumeCount)
    ensures result == if issued.Some? then reply else Pass
  {
    var ebsLimit := LimitForNode(node);
    var isTainted := NodeHasTaint(node);
    var shouldBeTainted := volumeCount >= ebsLimit;
    result, issued := Pass, None;
    if shouldBeTainted {
      if !isTainted {
        var patch := TaintNode(node);
        result, issued := reply, Some(patch);
      }
    } else {
      if isTainted {
        result, issued := reply, Some(UntaintNode(node));
      }
    }
  }

  /**
   * The node as the store holds it after accepting `patch`: the taint list is
   * replaced (removed when the patch sends `null`); nothing else changes.
   */
  function ApplyPatch(node: Node, patch: Patch): (patched: Node)
    requires node.spec.Some?
    ensures patched.metadata == node.metadata && patched.spec.Some?
  {
    node.(spec := Some(node.spec.value.(taints := patch.taints)))
  }

  /** What a taint patch sends: every existing taint in order, then exactly one controller taint. */
  lemma TaintPatchContents(node: Node, volumeCount: u8)
    requires WellFormed(node)
    requires Plan(node, volumeCount).Some? && ShouldBeTainted(volumeCount, LimitForNode(node))
    ensures var sent := Plan(node, volumeCount).value.taints;
            sent.Some? && sent.value[..|ExistingTaints(node)|] == ExistingTaints(node)
            && |sent.value| == |ExistingTaints(node)| + 1
            && CountKey(sent.value) == 1
  {
    NodeHasTaintCount(node);
    AddKeepsAndCountsOne(ExistingTaints(node));
  }

  /**
   * What an untaint patch sends: `null` when only controller taints were
   * present, else the other taints in their order, none with the controller's key.
   */
  lemma UntaintPatchContents(node: Node, volumeCount: u8)
    requires WellFormed(node)
    requires Plan(node, volumeCount).Some? && !ShouldBeTainted(volumeCount, LimitForNode(node))
    ensures var sent := Plan(node, volumeCount).value.taints;
            var old_ := node.spec.value.taints.value;
            (sent.None? <==> CountKey(old_) == |old_|)
            && (sent.Some? ==> sent.value == WithoutControllerTaint(old_) && CountKey(sent.value) == 0)
  {
    var old_ := node.spec.value.taints.value;
    var sent := Plan(node, volumeCount).value.taints;
    if sent.Some? {
      CountKeyPositive(sent.value);
    }
  }

  /** After an accepted patch the node is in the target state, and its limit is unchanged. */
  lemma PatchReachesTarget(node: Node, volumeCount: u8)
    requires WellFormed(node) && Plan(node, volumeCount).Some?
    ensures var patched := ApplyPatch(node, Plan(node, volumeCount).value);
            LimitForNode(patched) == LimitForNode(node)
            && NodeHasTaint(patched) == ShouldBeTainted(volumeCount, LimitForNode(node))
  {
    var patched := ApplyPatch(node, Plan(node, volumeCount).value);
    NodeHasTaintCount(patched);
    if ShouldBeTainted(volumeCount, LimitForNode(node)) {
      TaintPatchContents(node, volumeCount);
    } else {
      UntaintPatchContents(node, volumeCount);
    }
  }

  /**
   * Idempotence: once the planned patch (if any) is applied, reconciling again
   * with the same count issues no patch.
   */
  lemma ReconcileIdempotent(node: Node, volumeCount: u8)
    requires WellFormed(node)
    ensures var next := if Plan(node, volumeCount).Some? then ApplyPatch(node, Plan(node, volumeCount).value) else node;
            WellFormed(next) && Plan(next, volumeCount).None?
  {
    if Plan(node, volumeCount).Some? {
      PatchReachesTarget(node, volumeCount);
    }
  }

  /** A node with an `m5.xlarge` instance type and no annotation. */
  function XlargeNode(taints: Option<seq<Taint>>): Node
  {
    Node(NodeMeta(Some("node-a"), Some(map[InstanceTypeLabel := "m5.xlarge"]), None), Some(NodeSpec(taints)))
  }

  /** 21 volumes stay under the `xlarge` limit of 22; 22 volumes reach it and the node is tainted. */
  lemma ScenarioXlarge()
    ensures Plan(XlargeNode(None), 21) == None
    ensures Plan(XlargeNode(None), 22) == Some(Patch("node-a", Some([ControllerTaint])))
  {
    var node := XlargeNode(None);
    assert LimitFromAnnotation(node.metadata).None?;
    assert InstanceType(node.metadata) == "m5.xlarge";
    ExampleLimits(node.metadata);
    assert LimitForNode(node) == LimitForNode(Node(node.metadata, None)) == 22;
    assert !NodeHasTaint(node);
    assert ExistingTaints(node) == [];
    assert WithControllerTaint([]) == [ControllerTaint];
  }

  /** An annotation of `"5"` makes 6 volumes too many, whatever the instance type. */
  lemma ScenarioAnnotation(labels: Option<map<string, string>>)
    ensures var node := Node(NodeMeta(Some("node-b"), labels, Some(map[LimitAnnotation := "5"])), Some(NodeSpec(None)));
            Plan(node, 6) == Some(Patch("node-b", Some([ControllerTaint])))
  {
    var node := Node(NodeMeta(Some("node-b"), labels, Some(map[LimitAnnotation := "5"])), Some(NodeSpec(None)));
    assert AllDigits("5") && DigitsValue("5") == 5 by {
      assert "5"[..0] == [];
      assert DigitValue('5') == 5;
    }
    assert ParseU8("5") == Some(5);
    assert LimitFromAnnotation(node.metadata) == Some(5);
    assert !NodeHasTaint(node);
    assert ExistingTaints(node) == [];
    assert WithControllerTaint([]) == [ControllerTaint];
  }

  /** A tainted node whose count dropped to 0 loses only the controller's taint. */
  lemma ScenarioRelease(other: Taint, labels: Option<map<string, string>>, annotations: Option<map<string, string>>)
    requires other.key != TaintKey
    ensures var node := Node(NodeMeta(Some("node-c"), labels, annotations), Some(NodeSpec(Some([other, ControllerTaint]))));
            LimitForNode(node) > 0 ==> Plan(node, 0) == Some(Patch("node-c", Some([other])))
  {
    var taints := [other, ControllerTaint];
    assert ControllerTaint in taints;
    assert taints[1..] == [ControllerTaint];
    assert WithoutControllerTaint(taints) == [other];
  }
}
