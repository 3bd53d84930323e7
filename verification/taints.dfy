/**
 * The controller's taint and the two taint lists it sends: the node's list
 * with the controller taint appended, and the node's list with every taint
 * carrying the controller's key filtered out.
 */
module Taints {
  import opened Wrappers
  import opened Resources

  /** The taint the controller adds: `NoSchedule`, value `"true"`, no timestamp. */
  const ControllerTaint: Taint := Taint(TaintKey, "NoSchedule", Some("true"), None)

  /** A strategic-merge patch of one node's `spec.taints`; `None` is sent as `null`. */
  datatype Patch = Patch(nodeName: string, taints: Option<seq<Taint>>)

  /** The number of taints in `taints` that carry the controller's key. */
  function CountKey(taints: seq<Taint>): nat
  {
    if taints == [] then 0
    else (if taints[0].key == TaintKey then 1 else 0) + CountKey(taints[1..])
  }

  /** Whether the node carries a taint with the controller's key (`None` taints: no). */
  function NodeHasTaint(node: Node): (tainted: bool)
    requires node.spec.Some?
    ensures tainted ==> node.spec.value.taints.Some?
  {
    match node.spec.value.taints
    case None => false
    case Some(taints) => exists t :: t in taints && t.key == TaintKey
  }

  /** A node is tainted exactly when its taint list holds at least one controller-key taint. */
  lemma NodeHasTaintCount(node: Node)
    requires node.spec.Some?
    ensures NodeHasTaint(node) <==> CountKey(ExistingTaints(node)) > 0
  {
    var taints := ExistingTaints(node);
    CountKeyPositive(taints);
    if CountKey(taints) > 0 {
      var i :| 0 <= i < |taints| && taints[i].key == TaintKey;
      assert taints[i] in taints;
    }
  }

  lemma {:induction false} CountKeyPositive(taints: seq<Taint>)
    ensures CountKey(taints) > 0 <==> exists i :: 0 <= i < |taints| && taints[i].key == TaintKey
  {
    if taints != [] {
      CountKeyPositive(taints[1..]);
      assert forall i :: 1 <= i < |taints| ==> taints[i] == taints[1..][i - 1];
    }
  }

  lemma {:induction false} CountKeyAppend(a: seq<Taint>, b: seq<Taint>)
    ensures CountKey(a + b) == CountKey(a) + CountKey(b)
  {
    if a != [] {
      assert (a + b)[1..] == a[1..] + b;
      CountKeyAppend(a[1..], b);
    } else {
      assert a + b == b;
    }
  }

  /** The list sent when tainting: the existing taints followed by the controller taint. */
  function WithControllerTaint(taints: seq<Taint>): seq<Taint>
  {
    taints + [ControllerTaint]
  }

  /**
   * `taint_node`'s list: a copy of the node's taints (empty when it has none)
   * with the controller taint pushed onto it.
   */
  method TaintNode(node: Node) returns (patch: Patch)
    requires WellFormed(node)
    ensures patch.nodeName == node.metadata.name.value
    ensures patch.taints == Some(WithControllerTaint(ExistingTaints(node)))
  {
    var taints := if node.spec.value.taints.Some? then node.spec.value.taints.value else [];
    taints := taints + [ControllerTaint];
    patch := Patch(node.metadata.name.value, Some(taints));
  }

  /** Appending keeps every earlier taint in place and adds one controller-key taint. */
  lemma AddKeepsAndCountsOne(taints: seq<Taint>)
    ensures WithControllerTaint(taints)[..|taints|] == taints
    ensures CountKey(WithControllerTaint(taints)) == CountKey(taints) + 1
  {
    CountKeyAppend(taints, [ControllerTaint]);
    assert [ControllerTaint][1..] == [];
  }

  /** The filter of `untaint_node`: every taint without the controller's key, in order. */
  function WithoutControllerTaint(taints: seq<Taint>): (kept: seq<Taint>)
    ensures forall i :: 0 <= i < |kept| ==> kept[i].key != TaintKey
    ensures |kept| == |taints| - CountKey(taints)
  {
    if taints == [] then []
    else (if taints[0].key == TaintKey then [] else [taints[0]]) + WithoutControllerTaint(taints[1..])
  }

  /** Filtering a concatenation filters each part: the kept taints keep their order. */
  lemma {:induction false} RemoveDistributes(a: seq<Taint>, b: seq<Taint>)
    ensures WithoutControllerTaint(a + b) == WithoutControllerTaint(a) + WithoutControllerTaint(b)
  {
    if a != [] {
      assert (a + b)[0] == a[0];
      assert (a + b)[1..] == a[1..] + b;
      RemoveDistributes(a[1..], b);
    } else {
      assert a + b == b;
    }
  }

  /** Every taint without the controller's key keeps its multiplicity. */
  lemma {:induction false} RemoveKeepsOthers(taints: seq<Taint>, t: Taint)
    requires t.key != TaintKey
    ensures multiset(WithoutControllerTaint(taints))[t] == multiset(taints)[t]
  {
    if taints != [] {
      RemoveKeepsOthers(taints[1..], t);
      assert taints == [taints[0]] + taints[1..];
    }
  }

  /** A list without controller-key taints is sent back unchanged. */
  lemma {:induction false} RemoveIdentity(taints: seq<Taint>)
    requires CountKey(taints) == 0
    ensures WithoutControllerTaint(taints) == taints
  {
    if taints != [] {
      RemoveIdentity(taints[1..]);
    }
  }

  /** Untainting right after tainting a node that had no controller taint restores its list. */
  lemma AddThenRemove(taints: seq<Taint>)
    requires CountKey(taints) == 0
    ensures WithoutControllerTaint(WithControllerTaint(taints)) == taints
  {
    RemoveDistributes(taints, [ControllerTaint]);
    RemoveIdentity(taints);
    assert WithoutControllerTaint([ControllerTaint]) == [];
  }

  /** The taints sent when untainting: the filtered list, or `null` when nothing is left. */
  function UntaintedList(taints: seq<Taint>): (sent: Option<seq<Taint>>)
    ensures sent.None? <==> CountKey(taints) == |taints|
    ensures sent.Some? ==> sent.value == WithoutControllerTaint(taints) && sent.value != []
  {
    var kept := WithoutControllerTaint(taints);
    if kept == [] then None else Some(kept)
  }

  /** `untaint_node`'s patch; the node's taint list must be present. */
  function UntaintNode(node: Node): (patch: Patch)
    requires WellFormed(node) && node.spec.value.taints.Some?
    ensures patch.nodeName == node.metadata.name.value
  {
    Patch(node.metadata.name.value, UntaintedList(node.spec.value.taints.value))
  }
}
