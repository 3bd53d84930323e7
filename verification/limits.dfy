/**
 * The limit resolver: how many EBS volumes a node may have attached before it
 * is tainted. An operator annotation that parses as a byte wins; otherwise the
 * limit is derived from the instance size in the node's instance-type label.
 */
module Limits {
  import opened Wrappers
  import opened Resources
  import opened DecimalU8

  /** Network interfaces per instance size (the text after the last `.` of the instance type). */
  const EniCountBySize: map<string, u8> := map[
    "nano" := 2,
    "micro" := 2,
    "small" := 3,
    "medium" := 2,
    "large" := 3,
    "xlarge" := 4,
    "2xlarge" := 4,
    "4xlarge" := 8,
    "8xlarge" := 8,
    "9xlarge" := 8,
    "10xlarge" := 8,
    "12xlarge" := 8,
    "16xlarge" := 15,
    "18xlarge" := 15,
    "24xlarge" := 15
  ]

  /** Assumed interface count for `metal` and every size not in the table. */
  const DefaultEniLimit: u8 := 15

  /** Nitro's documented attachment cap, and the slots kept for the root and local SSD volumes. */
  const AttachmentCap: u8 := 28
  const ReservedSlots: u8 := 2

  /**
   * The text after the last `.` of `s` (all of `s` when it has no `.`):
   * the longest dot-free suffix of `s`.
   */
  function AfterLastDot(s: string): (r: string)
    ensures |r| <= |s| && r == s[|s| - |r|..]
    ensures '.' !in r
    ensures |r| < |s| ==> s[|s| - |r| - 1] == '.'
  {
    if s == [] then []
    else if s[|s| - 1] == '.' then []
    else AfterLastDot(s[..|s| - 1]) + [s[|s| - 1]]
  }

  /** The instance-type label, or `""` when the node has no labels or no such label. */
  function InstanceType(meta: NodeMeta): (instanceType: string)
    ensures meta.labels.None? ==> instanceType == ""
    ensures instanceType != "" ==> meta.labels.Some? && InstanceTypeLabel in meta.labels.value
                                   && meta.labels.value[InstanceTypeLabel] == instanceType
  {
    if meta.labels.Some? && InstanceTypeLabel in meta.labels.value
    then meta.labels.value[InstanceTypeLabel] else ""
  }

  /** The table entry for `size`, or the default. */
  function EniCount(size: string): (n: u8)
    ensures 2 <= n <= 15
    ensures size !in EniCountBySize ==> n == DefaultEniLimit
  {
    if size in EniCountBySize then EniCountBySize[size] else DefaultEniLimit
  }

  /** The annotation's value when it is present and parses as a byte. */
  function LimitFromAnnotation(meta: NodeMeta): (limit: Option<u8>)
    ensures meta.annotations.None? ==> limit.None?
    ensures limit.Some? ==> meta.annotations.Some? && LimitAnnotation in meta.annotations.value
                            && ParseU8(meta.annotations.value[LimitAnnotation]) == limit
  {
    if meta.annotations.Some? && LimitAnnotation in meta.annotations.value
    then ParseU8(meta.annotations.value[LimitAnnotation]) else None
  }

  /** `28 - 2 - eni` in `u8` arithmetic; the bounds show it never underflows. */
  function LimitFromInstanceType(meta: NodeMeta): (limit: u8)
    ensures 11 <= limit <= 24
  {
    AttachmentCap - ReservedSlots - EniCount(AfterLastDot(InstanceType(meta)))
  }

  /** The annotation limit when there is one, the instance-type limit otherwise. */
  function LimitForNode(node: Node): (limit: u8)
    ensures LimitFromAnnotation(node.metadata).Some? ==> limit == LimitFromAnnotation(node.metadata).value
    ensures LimitFromAnnotation(node.metadata).None? ==> 11 <= limit <= 24
  {
    var fromAnnotation := LimitFromAnnotation(node.metadata);
    if fromAnnotation.Some? then fromAnnotation.value else LimitFromInstanceType(node.metadata)
  }

  /** A parseable annotation is the limit exactly, whatever the node's labels say. */
  lemma AnnotationOverrides(node: Node, labels: Option<map<string, string>>)
    requires node.metadata.annotations.Some?
    requires LimitAnnotation in node.metadata.annotations.value
    requires ParseU8(node.metadata.annotations.value[LimitAnnotation]).Some?
    ensures LimitForNode(node) == ParseU8(node.metadata.annotations.value[LimitAnnotation]).value
    ensures LimitForNode(node.(metadata := node.metadata.(labels := labels))) == LimitForNode(node)
  {
  }

  /** Without a usable annotation the limit is 26 less the interface count of the instance size. */
  lemma InstanceTypeFallback(node: Node)
    requires LimitFromAnnotation(node.metadata).None?
    ensures LimitForNode(node) as int
            == 26 - EniCount(AfterLastDot(InstanceType(node.metadata))) as int
    ensures 11 <= LimitForNode(node) <= 24
  {
  }

  /** Sizes outside the table, `metal` among them, give the most conservative limit, 11. */
  lemma UnknownSizeLimit(node: Node)
    requires LimitFromAnnotation(node.metadata).None?
    requires AfterLastDot(InstanceType(node.metadata)) !in EniCountBySize
    ensures LimitForNode(node) == 11
  {
  }

  /** A node without labels has instance type `""`, which is not in the table. */
  lemma NoLabelLimit(node: Node)
    requires LimitFromAnnotation(node.metadata).None?
    requires node.metadata.labels.None?
    ensures LimitForNode(node) == 11
  {
    assert InstanceType(node.metadata) == "";
    assert "" !in EniCountBySize;
    UnknownSizeLimit(node);
  }

  /** Without annotation, an `m5.xlarge` node may hold 22 volumes and an `m5.metal` node 11. */
  lemma ExampleLimits(meta: NodeMeta)
    requires LimitFromAnnotation(meta).None?
    ensures InstanceType(meta) == "m5.xlarge" ==> LimitForNode(Node(meta, None)) == 22
    ensures InstanceType(meta) == "m5.metal" ==> LimitForNode(Node(meta, None)) == 11
  {
    assert AfterLastDot("m5.xlarge") == "xlarge";
    assert AfterLastDot("m5.metal") == "metal";
  }
}
