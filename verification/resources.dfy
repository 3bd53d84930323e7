/**
 * The cluster resources the controller reads, reduced to the fields it uses,
 * and the controller's fixed constants.
 */
module Resources {
  import opened Wrappers

  /** Rust's `u8`. */
  newtype u8 = x: int | 0 <= x < 256

  /** The controller's error kinds: a rejected API call, or a patch body that could not be encoded. */
  datatype Error = KubeFailure | SerializationError

  /** A scheduling-exclusion marker on a node. */
  datatype Taint = Taint(key: string, effect: string, value: Option<string>, timeAdded: Option<string>)

  /** A pod volume; only whether it references a persistent volume claim matters here. */
  datatype Volume = Volume(name: string, persistentVolumeClaim: Option<string>)

  datatype PodSpec = PodSpec(nodeName: Option<string>, volumes: Option<seq<Volume>>)

  datatype Pod = Pod(spec: Option<PodSpec>)

  datatype NodeMeta = NodeMeta(
    name: Option<string>,
    labels: Option<map<string, string>>,
    annotations: Option<map<string, string>>)

  datatype NodeSpec = NodeSpec(taints: Option<seq<Taint>>)

  datatype Node = Node(metadata: NodeMeta, spec: Option<NodeSpec>)

  /** A node the controller can handle without panicking: it has a name and a spec. */
  predicate WellFormed(node: Node)
  {
    node.metadata.name.Some? && node.spec.Some?
  }

  /** The node's current taint list, `None` read as the empty list. */
  function ExistingTaints(node: Node): seq<Taint>
    requires node.spec.Some?
  {
    if node.spec.value.taints.Some? then node.spec.value.taints.value else []
  }

  const LimitAnnotation: string := "xometry.com/ebs-limit"
  const TaintKey: string := "xometry.com/ebs-limit-reached"
  const InstanceTypeLabel: string := "beta.kubernetes.io/instance-type"
}
