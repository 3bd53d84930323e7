/**
 * The volume census: for every node that some scheduled pod is bound to, the
 * number of PVC-backed volumes of the pods bound to it.
 */
module Census {
  import opened Wrappers
  import opened Resources

  /** Every volume that references a persistent volume claim is taken to be an EBS volume. */
  predicate VolumeIsEbs(volume: Volume)
  {
    volume.persistentVolumeClaim.Some?
  }

  /** The number of EBS volumes in `volumes`. */
  function EbsCount(volumes: seq<Volume>): (n: nat)
    ensures n <= |volumes|
  {
    if volumes == [] then 0
    else EbsCount(volumes[..|volumes| - 1]) + (if VolumeIsEbs(volumes[|volumes| - 1]) then 1 else 0)
  }

  /** The positions of the EBS volumes: an independent account of what `EbsCount` counts. */
  function EbsPositions(volumes: seq<Volume>): set<int>
  {
    set i | 0 <= i < |volumes| && VolumeIsEbs(volumes[i])
  }

  lemma {:induction false} EbsCountIsPositions(volumes: seq<Volume>)
    ensures EbsCount(volumes) == |EbsPositions(volumes)|
  {
    if volumes != [] {
      var n := |volumes| - 1;
      var init := volumes[..n];
      EbsCountIsPositions(init);
      assert EbsPositions(init) == EbsPositions(volumes) - {n};
      if VolumeIsEbs(volumes[n]) {
        assert EbsPositions(volumes) == EbsPositions(init) + {n};
      } else {
        assert EbsPositions(volumes) == EbsPositions(init);
      }
    }
  }

  /** A pod's EBS volume count, saturating at 255 (a pod with no volume list counts 0). */
  function EbsVolumeCount(pod: Pod): (n: u8)
    requires pod.spec.Some?
    ensures pod.spec.value.volumes.None? ==> n == 0
    ensures pod.spec.value.volumes.Some? ==>
              n as int <= EbsCount(pod.spec.value.volumes.value)
              && (n < 255 ==> n as int == EbsCount(pod.spec.value.volumes.value))
  {
    match pod.spec.value.volumes
    case None => 0
    case Some(volumes) =>
      var n := EbsCount(volumes);
      if n < 256 then n as u8 else 255
  }

  /** A pod's count is the number of its PVC-backed volumes, capped at 255. */
  lemma PodCountIsCappedPositions(pod: Pod)
    requires pod.spec.Some? && pod.spec.value.volumes.Some?
    ensures var n := |EbsPositions(pod.spec.value.volumes.value)|;
            EbsVolumeCount(pod) as int == if n <= 255 then n else 255
  {
    EbsCountIsPositions(pod.spec.value.volumes.value);
  }

  /** The node a pod is bound to; a pod without a spec is unscheduled. */
  function PodNodeName(pod: Pod): (name: Option<string>)
    ensures pod.spec.None? ==> name.None?
    ensures name.Some? ==> pod.spec.Some? && pod.spec.value.nodeName == name
  {
    if pod.spec.Some? then pod.spec.value.nodeName else None
  }

  /** What `pod` adds to the count of node `name`. */
  function Contribution(pod: Pod, name: string): nat
  {
    if PodNodeName(pod) == Some(name) then EbsVolumeCount(pod) as nat else 0
  }

  /** The total EBS volume count of the pods in `pods` bound to node `name`. */
  function Load(pods: seq<Pod>, name: string): nat
  {
    if pods == [] then 0 else Load(pods[..|pods| - 1], name) + Contribution(pods[|pods| - 1], name)
  }

  /** The names of the nodes that some pod in `pods` is bound to. */
  function BoundNames(pods: seq<Pod>): set<string>
  {
    if pods == [] then {}
    else
      var last := pods[|pods| - 1];
      BoundNames(pods[..|pods| - 1]) + (if PodNodeName(last).Some? then {PodNodeName(last).value} else {})
  }

  /** A name is bound exactly when some pod in the list is bound to it. */
  lemma {:induction false} BoundNamesMeaning(pods: seq<Pod>, name: string)
    ensures name in BoundNames(pods) <==> exists i :: 0 <= i < |pods| && PodNodeName(pods[i]) == Some(name)
  {
    if pods != [] {
      var init := pods[..|pods| - 1];
      BoundNamesMeaning(init, name);
      assert forall i :: 0 <= i < |init| ==> init[i] == pods[i];
    }
  }

  lemma {:induction false} BoundNamesAppend(a: seq<Pod>, b: seq<Pod>)
    ensures BoundNames(a + b) == BoundNames(a) + BoundNames(b)
  {
    if b != [] {
      var n := |b| - 1;
      assert (a + b)[..|a + b| - 1] == a + b[..n];
      assert (a + b)[|a + b| - 1] == b[n];
      BoundNamesAppend(a, b[..n]);
    } else {
      assert a + b == a;
    }
  }

  /** The per-node sums fit in a `u8`; otherwise the controller's `u8` accumulation overflows. */
  predicate CensusFits(pods: seq<Pod>)
  {
    forall name :: name in BoundNames(pods) ==> Load(pods, name) <= 255
  }

  lemma {:induction false} LoadAppend(a: seq<Pod>, b: seq<Pod>, name: string)
    ensures Load(a + b, name) == Load(a, name) + Load(b, name)
  {
    if b != [] {
      var n := |b| - 1;
      assert (a + b)[..|a + b| - 1] == a + b[..n];
      assert (a + b)[|a + b| - 1] == b[n];
      LoadAppend(a, b[..n], name);
    } else {
      assert a + b == a;
    }
  }

  lemma LoadPrefix(pods: seq<Pod>, i: nat, name: string)
    requires i <= |pods|
    ensures Load(pods[..i], name) <= Load(pods, name)
  {
    assert pods == pods[..i] + pods[i..];
    LoadAppend(pods[..i], pods[i..], name);
  }

  /** A node no pod is bound to has load 0. */
  lemma {:induction false} LoadUnbound(pods: seq<Pod>, name: string)
    requires name !in BoundNames(pods)
    ensures Load(pods, name) == 0
  {
    if pods != [] {
      LoadUnbound(pods[..|pods| - 1], name);
    }
  }

  /** An unscheduled pod contributes nothing, wherever it stands in the pod list. */
  lemma UnscheduledIgnored(a: seq<Pod>, pod: Pod, b: seq<Pod>, name: string)
    requires PodNodeName(pod).None?
    ensures Load(a + [pod] + b, name) == Load(a + b, name)
  {
    LoadAppend(a + [pod], b, name);
    LoadAppend(a, [pod], name);
    LoadAppend(a, b, name);
    assert [pod][..0] == [];
  }

  /**
   * The census loop: an entry (starting at 0) for the node of every scheduled
   * pod, increased by that pod's EBS volume count.
   */
  method NodeVolumeCounts(pods: seq<Pod>) returns (nodeMap: map<string, u8>)
    requires CensusFits(pods)
    ensures nodeMap.Keys == BoundNames(pods)
    ensures forall name :: name in nodeMap ==> nodeMap[name] as int == Load(pods, name)
  {
    nodeMap := map[];
    for i := 0 to |pods|
      invariant nodeMap.Keys == BoundNames(pods[..i])
      invariant forall name :: name in nodeMap ==> nodeMap[name] as int == Load(pods[..i], name)
    {
      var pod := pods[i];
      assert pods[..i + 1][..i] == pods[..i];
      match PodNodeName(pod) {
        case None =>
        case Some(name) =>
          if name !in nodeMap {
            LoadUnbound(pods[..i], name);
            nodeMap := nodeMap[name := 0];
          }
          assert pods == pods[..i + 1] + pods[i + 1..];
          BoundNamesAppend(pods[..i + 1], pods[i + 1..]);
          LoadPrefix(pods, i + 1, name);
          nodeMap := nodeMap[name := nodeMap[name] + EbsVolumeCount(pod)];
      }
    }
    assert pods[..|pods|] == pods;
  }

  /** A node's load as a byte, for pods whose per-node sums fit. */
  function LoadByte(pods: seq<Pod>, name: string): (n: u8)
    requires CensusFits(pods)
    ensures n as int == Load(pods, name)
  {
    if name in BoundNames(pods) then Load(pods, name) as u8
    else LoadUnbound(pods, name); 0
  }

  /** The census count of `name`, a missing entry read as 0. */
  function CountOrZero(nodeMap: map<string, u8>, name: string): (count: u8)
    ensures name !in nodeMap ==> count == 0
    ensures count != 0 ==> name in nodeMap && nodeMap[name] == count
  {
    if name in nodeMap then nodeMap[name] else 0
  }

  /** Looking a node up in the census, absent read as 0, gives exactly its load. */
  lemma CensusLookup(pods: seq<Pod>, nodeMap: map<string, u8>, name: string)
    requires nodeMap.Keys == BoundNames(pods)
    requires forall n :: n in nodeMap ==> nodeMap[n] as int == Load(pods, n)
    ensures CountOrZero(nodeMap, name) as int == Load(pods, name)
  {
    if name !in nodeMap {
      LoadUnbound(pods, name);
    }
  }
}
