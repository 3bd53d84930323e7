# EBS volume-limit controller, modelled in Dafny

A model of the reconciliation policy of a Kubernetes controller that keeps
nodes from attaching more EBS volumes than they can hold. One pass lists the
nodes and the pods, counts the PVC-backed volumes of the pods scheduled on
each node (the census), works out each node's attachment limit, and taints
a node with `xometry.com/ebs-limit-reached` (`NoSchedule`) when its count
has reached its limit, or removes that taint when it has dropped below.

Modules (one file each):

- `Wrappers` (`wrappers.dfy`): `Option`, `Result`, `Outcome`.
- `Resources` (`resources.dfy`): `Node`, `Pod`, `Volume`, `Taint` with only the fields the controller reads; the `u8` newtype; the annotation, label and taint-key constants.
- `DecimalU8` (`decimal_u8.dfy`): Rust's `u8::from_str`, used to parse the limit annotation.
- `Limits` (`limits.dfy`): the ENI table, its default of 15, and the limit resolver.
- `Census` (`census.dfy`): the per-pod EBS count and the census loop.
- `Taints` (`taints.dfy`): the controller taint, the taint list sent when tainting and the one sent when untainting.
- `Reconcile` (`reconcile.dfy`): the per-node decision, the patch it issues, and the node after the store applies that patch.
- `Controller` (`controller.dfy`): the pass run by `main`, with its first-error aggregation.

A patch is a returned value: the node name plus the new taint list (`None` is the JSON `null`). The store's answer to a patch is an input (`replies`), and so are the results of the two list calls.

Four behaviours of the code are easy to misread; the model follows the code:

- The limit annotation is parsed as a `u8`. Negative values and values above 255 do not parse, and the resolver then falls back to the instance type. It never returns them.
- Only the per-pod count saturates at 255. The per-node sum is plain `u8` addition. `Census.NodeVolumeCounts` therefore requires `CensusFits`: every node's sum fits in a `u8`.
- The census has an entry, possibly 0, for the node of every scheduled pod. This includes pods without PVCs. A missing entry and an entry of 0 mean the same thing only through the default-0 lookup (`Census.CountOrZero`).
- A limit from the instance type always lies between 11 and 24. An annotation limit lies between 0 and 255. No limit is ever negative.

## Model

| member | source | states |
|---|---|---|
| `DecimalU8.ParseU8` | src/main.rs:53 | an accepted annotation does not start with `-`; after an optional `+` it is a non-empty run of decimal digits whose value is the result (so the result is at most 255) |
| `DecimalU8.DecimalValue` | src/main.rs:53 | the decimal rendering of n has digit value n |
| `DecimalU8.ParseDecimalRoundTrip` | src/main.rs:53 | every byte value, written in decimal with or without `+`, parses back to itself |
| `DecimalU8.ParseRejectsOverflow` | src/main.rs:53 | a decimal value above 255 does not parse, with or without `+` |
| `DecimalU8.ParseRejectsMinus` | src/main.rs:53 | nothing starting with `-` parses, so negative limits are never read |
| `DecimalU8.LeadingZeroValue` | src/main.rs:53 | leading zeros are accepted and do not change the value |
| `Limits.AfterLastDot` | src/main.rs:62 | the result is the longest suffix of the instance type that holds no `.`: a suffix, dot-free, and preceded by a `.` when shorter than the whole |
| `Limits.EniCount` | src/main.rs:13-33 | every interface count, from the table or the default, lies in [2, 15]; sizes outside the table get 15 |
| `Limits.InstanceType` | src/main.rs:61 | a node without labels, or without the instance-type label, reads as instance type `""`; any other result is that label's value |
| `Limits.LimitFromInstanceType` | src/main.rs:60-65 | `28 - 2 - eni` never underflows: the limit lies in [11, 24] |
| `Limits.LimitFromAnnotation` | src/main.rs:52-54 | no annotations means no annotation limit; a limit is returned only when the `xometry.com/ebs-limit` annotation is present and parses as a byte, and it is that parse |
| `Limits.LimitForNode` | src/main.rs:67-69 | the annotation limit when there is one; otherwise the instance-type limit, which lies in [11, 24] |
| `Limits.AnnotationOverrides` | src/main.rs:67-69 | a parseable annotation is the node's limit exactly, and changing the node's labels does not change the limit |
| `Limits.InstanceTypeFallback` | src/main.rs:60-69 | without a usable annotation the limit is 26 minus the table value of the size after the last `.`, so it lies in [11, 24] |
| `Limits.UnknownSizeLimit` | src/main.rs:32-33 | a size outside the table, such as `metal`, gives the limit 11 |
| `Limits.NoLabelLimit` | src/main.rs:61-64 | a node without labels is read as instance type `""` and gets the limit 11 |
| `Limits.ExampleLimits` | src/main.rs:60-65 | without annotation, `m5.xlarge` gives 22 and `m5.metal` gives 11 |
| `Census.EbsCount` | src/main.rs:81 | the number of PVC volumes is at most the number of volumes |
| `Census.VolumeIsEbs` | src/main.rs:71-74 | a volume counts as EBS exactly when it references a persistent volume claim (a predicate; its meaning in the count is stated by `Census.EbsCountIsPositions`) |
| `Census.EbsCountIsPositions` | src/main.rs:71-81 | the counted volumes are exactly those that reference a persistent volume claim (the size of the set of their positions) |
| `Census.EbsVolumeCount` | src/main.rs:76-84 | a pod without a volume list counts 0; otherwise the count never exceeds the PVC count and equals it whenever it is below 255 |
| `Census.PodCountIsCappedPositions` | src/main.rs:76-84 | a pod's count is the number of its PVC volumes, capped at 255 |
| `Census.PodNodeName` | src/main.rs:86-88 | a pod without a spec is unscheduled; a bound pod has a spec whose node name is the result |
| `Census.BoundNamesMeaning` | src/main.rs:86-88 | a node name is in the census domain exactly when some pod in the list is bound to it |
| `Census.LoadAppend` | src/main.rs:102-108 | the per-node sum over a concatenation of pod lists is the sum of the two parts' sums |
| `Census.UnscheduledIgnored` | src/main.rs:103-104 | a pod without a node name changes no node's sum, wherever it stands in the list |
| `Census.LoadUnbound` | src/main.rs:101-110 | a node no pod is bound to has sum 0 |
| `Census.NodeVolumeCounts` | src/main.rs:97-112 | when every node's sum fits in a `u8`, the census has an entry exactly for each node some pod is bound to, and each entry is the sum of the EBS counts of the pods bound to that node |
| `Census.LoadByte` | src/main.rs:204 | the count handed to the reconciler is the node's full sum, 0 for a node that hosts no pod |
| `Census.CountOrZero` | src/main.rs:204 | a node missing from the census has count 0; a non-zero count is that node's census entry |
| `Census.CensusLookup` | src/main.rs:204 | looking any node up in the census, with a missing entry read as 0, gives the sum of the EBS counts of its pods |
| `Taints.NodeHasTaintCount` | src/main.rs:90-94 | a node counts as tainted exactly when its taint list holds at least one taint with the controller's key |
| `Taints.NodeHasTaint` | src/main.rs:90-94 | a node whose taint list is absent is not tainted (the full meaning is `Taints.NodeHasTaintCount`) |
| `Taints.TaintNode` | src/main.rs:122-129 | the taint patch targets the node by name and sends the node's taints (empty if none) followed by the controller taint |
| `Taints.AddKeepsAndCountsOne` | src/main.rs:123-129 | the taint list keeps every earlier taint in place and holds exactly one more controller-key taint |
| `Taints.WithoutControllerTaint` | src/main.rs:148 | no kept taint carries the controller's key, and exactly the controller-key taints are dropped |
| `Taints.RemoveDistributes` | src/main.rs:148 | filtering distributes over concatenation, so the kept taints keep their relative order |
| `Taints.RemoveKeepsOthers` | src/main.rs:148 | each taint without the controller's key occurs in the result as often as in the input |
| `Taints.RemoveIdentity` | src/main.rs:148 | a list without controller-key taints is sent back unchanged |
| `Taints.AddThenRemove` | src/main.rs:123-148 | untainting right after tainting a node that had no controller taint gives back its original taint list |
| `Taints.UntaintedList` | src/main.rs:148-149 | `null` is sent exactly when every taint carried the controller's key; otherwise the non-empty filtered list is sent |
| `Taints.UntaintNode` | src/main.rs:147-149 | the untaint patch targets the node by name |
| `Reconcile.Plan` | src/main.rs:167-186 | a patch is issued exactly when the target state (`count >= limit`) differs from the node's current taint state, and it targets that node |
| `Reconcile.ShouldBeTainted` | src/main.rs:171 | a node should be tainted exactly when its count has reached its limit; so a limit of 0 taints every node and a count of 255 reaches every limit |
| `Reconcile.ReconcileNode` | src/main.rs:166-186 | the branch structure issues exactly the planned patch; the result is the store's reply when a patch is issued and success otherwise |
| `Reconcile.ApplyPatch` | src/main.rs:130-142 | the store's merge of a patch changes only the node's taint list, never its metadata |
| `Reconcile.TaintPatchContents` | src/main.rs:172-175 | a taint patch sends every existing taint in order plus one taint, and the result holds exactly one controller-key taint |
| `Reconcile.UntaintPatchContents` | src/main.rs:179-183 | an untaint patch sends `null` exactly when only controller taints were present, and otherwise the filtered list, which holds no controller-key taint |
| `Reconcile.PatchReachesTarget` | src/main.rs:171-184 | once the store applies the patch, the node's taint state equals the target state and its limit is unchanged |
| `Reconcile.ReconcileIdempotent` | src/main.rs:167-186 | after the planned patch (if any) is applied, reconciling again with the same count issues no patch |
| `Reconcile.ScenarioXlarge` | src/main.rs:167-186 | an untainted `m5.xlarge` node with 21 volumes is left alone; with 22 it gets exactly the controller taint |
| `Reconcile.ScenarioAnnotation` | src/main.rs:52-54 | a node annotated `"5"` with 6 volumes is tainted, whatever its labels |
| `Reconcile.ScenarioRelease` | src/main.rs:179-183 | a tainted node whose count falls below its limit loses only the controller's taint |
| `Controller.FirstFailure` | src/main.rs:207-213 | the result is success exactly when every outcome passed; otherwise it is a failing outcome with only successes before it |
| `Controller.RunPass` | src/main.rs:188-214 | a failed list call fails the pass with that error and no patch is issued. Otherwise every node gets the patch planned from its census count (0 if absent), and the pass returns the first failure in node order |
| `Controller.PassFailsIff` | src/main.rs:202-213 | the pass fails exactly when some node was patched and the store refused that patch |

## Left out

- Kubernetes API calls (`Client::try_default`, `Api::list`, `Api::patch`, `PatchParams`) are not modelled as calls. The list results and each patch's reply are parameters of `Controller.RunPass`. A failure of `Client::try_default` is not modelled.
- JSON serialisation of the patch body is not modelled. An encoding failure (`Error.SerializationError`) can appear only as the reply given for a patch.
- Strategic-merge semantics are reduced to one rule: the taint list is replaced, and `null` removes it. The node spec's other fields are not modelled.
- Concurrency (`try_join!`, `join_all`) is modelled by its sequential meaning. Both lists must be fetched before anything else happens. Every node is reconciled before the results are inspected.
- Controller.RunPass: when both list calls fail, the model returns the node-list error. The Rust code returns whichever error `try_join!` sees first. The contract only promises one of the two errors.
- Logging (`tracing`, `event!`, `#[instrument]`), `tokio::main` and `lazy_static` initialisation are not modelled. They have no behaviour to state.
- The `unwrap()` panics on a missing node spec or name, and on a missing pod spec, are not modelled as behaviour. They become preconditions (`WellFormed`, `pod.spec.Some?`).
- Census.NodeVolumeCounts: it requires every per-node sum to fit in a `u8`. It does not model the overflow itself, which panics in debug builds and wraps in release builds.
