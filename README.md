# CloudComPy processing core, modelled in Dafny

CloudComPy exposes CloudCompare's point-cloud processing to Python. The
functions of `pybind11/cloudComPy.cpp` modelled here do no geometry
themselves. They take lists of entities (clouds, meshes, groups) from the
object tree, classify them, call the CloudCompare library in loops, count and
name what comes back, and edit the tree. This model covers that bookkeeping:

- **Removal schedule** (`AddToRemoveListPy`): a list of nodes to delete that
  never holds a node together with one of its ancestors.
- **Entity merger** (`MergeEntitiesPy`):
  - sorts the inputs into plain clouds and meshes with plain-cloud vertices,
    keeping a first cloud that lies below no other input;
  - appends the other clouds to the first until an append fails;
  - can record, per point, the input it came from in the scalar field
    "Original cloud index";
  - schedules the consumed clouds (or their single-child groups) for removal,
    then removes them;
  - merges meshes into a new "Merged mesh" instead when there are no clouds.
- **Component clouds** (`ComponentIndexAndSize`, `createComponentsClouds_`):
  - orders components by non-increasing size;
  - turns the large ones into clouds named `CC#0`, `CC#1`, ...;
  - gathers the small ones into one residual selection.
- **Connected-components driver** (`ExtractConnectedComponents_py`):
  - labels each plain cloud through the library, using the transient field
    "CC labels";
  - counts the large components across all clouds against a maximum;
  - stops the whole loop when a cloud cannot be labelled;
  - returns a pair instead of a triple when there are too many components.
- **Slice parameters** (`ExtractSlicesAndContours_py`): splits the entities
  into meshes and clouds and clamps the envelope type to LOWER/UPPER/FULL
  before calling the library.

How the model represents the system:

- **Object tree.** A value `Tree` holds the nodes' entities, the parent links
  and a depth map that witnesses that the links have no cycle.
- **Entities.** Each entity is reduced to its kind, name, point sequence and
  scalar-field names.
- **Library calls.** Appending, partial cloning, sorting, labelling, mesh
  merging and slicing are function or flag parameters of the operations. So
  are their allocation failures. A whole-cloud copy (`cloneThis`) is taken to
  be an exact copy of the cloud.
- **Imperative code.** The loops of the source are `method`s with loop
  invariants. Each is proved against a specification function, and the
  properties the source promises are lemmas about those functions.

Behaviour of the code that the model keeps:

- A cloud whose octree cannot be computed stops the whole loop (`break`);
  the clouds after it are not processed.
- Too many components make the call return the pair
  `(nbCloudDone, resultComponents)`; only the normal end returns the triple
  with the residual clouds.
- A label field that a cloud already had stays on it when the loop stops
  before processing that cloud, or when the cloud's octree fails.
- `ParallelSort` orders the components by non-increasing size and leaves the
  order of equal-sized components open.
- The residual selection holds the positions of the points within their
  component, not the points' indices in the cloud (see "## Findings").
- When the residual selection cannot grow, the code deletes it and goes on
  with a null pointer. No partial residual is emitted.

Files: `Wrappers.dfy` (Option), `ObjectGraph.dfy` (tree, kinds, ancestry,
removal), `RemoveList.dfy`, `EntityMerger.dfy`, `Components.dfy`,
`ConnectedComponents.dfy`, `Slicing.dfy`.

## Model

| member | source | states |
|---|---|---|
| ObjectGraph.CloudsOfMembers | pybind11/cloudComPy.cpp:459-465 | exactly the entities of a cloud kind (isKindOf(POINT_CLOUD)) are kept |
| ObjectGraph.AncestorAsymmetric | pybind11/cloudComPy.cpp:603-608 | isAncestorOf never holds both ways, so at most one of the two tests of the scan applies |
| ObjectGraph.AncestorTransitive | pybind11/cloudComPy.cpp:603-607 | an ancestor of an ancestor is an ancestor, which is what makes an already scheduled ancestor cover the new node |
| ObjectGraph.OnlyChildCoversGroup | pybind11/cloudComPy.cpp:758-761 | below a group whose only child is the cloud, every node is the cloud or lies below it, so removing the group removes nothing else |
| ObjectGraph.SetEntity | pybind11/cloudComPy.cpp:749-750 | growing the first cloud in place changes that node only and leaves every link as it was |
| ObjectGraph.Detach | pybind11/cloudComPy.cpp:803-806 | removing a child (or deleting a root) leaves exactly the nodes that are neither it nor below it, unchanged, with their links |
| ObjectGraph.DetachKeepsAncestry | pybind11/cloudComPy.cpp:803-806 | removing a node does not change the ancestry of the nodes that stay |
| ObjectGraph.SurvivesEarlierRemovals | pybind11/cloudComPy.cpp:799-809 | a node at or below none of the removed nodes is still not below the next one once the earlier ones are removed |
| ObjectGraph.DetachAllKeeps | pybind11/cloudComPy.cpp:799-809 | after removing a list of nodes, a node stays exactly when it is at or below none of them, unchanged and with the same ancestors |
| RemoveList.SurvivorsCount | pybind11/cloudComPy.cpp:608-614 | every entry not below `toRemove` is kept as often as it occurs, the ones below it are dropped |
| RemoveList.SwapWithBackPop | pybind11/cloudComPy.cpp:611-612 | overwriting entry j with the last entry and popping the back removes exactly entry j from the multiset |
| RemoveList.EarlyReturnIsScheduleUpdate | pybind11/cloudComPy.cpp:603-607 | when an entry is an ancestor of `toRemove`, returning leaves a list that is unchanged when it had no nesting and still covers `toRemove` |
| RemoveList.AppendKeepsCover | pybind11/cloudComPy.cpp:620-622 | appending `toRemove` to the entries the scan kept covers `toRemove` and every old entry, introduces no nesting, and no old entry is above `toRemove` |
| RemoveList.AppendIsScheduleUpdate | pybind11/cloudComPy.cpp:620-622 | when the scan ends, appending `toRemove` gives the entries not below it plus `toRemove` last, and no nesting is introduced |
| RemoveList.KeptAreSurvivors | pybind11/cloudComPy.cpp:608-619 | the entries left by the scan are, as a multiset, the entries that do not lie below `toRemove` |
| RemoveList.AddToRemoveList | pybind11/cloudComPy.cpp:597-623 | an already scheduled ancestor leaves the list unchanged; otherwise exactly the entries below `toRemove` are dropped, every other entry kept, and `toRemove` appended last; no nesting is introduced and everything covered stays covered |
| RemoveList.RescheduledTwice | pybind11/cloudComPy.cpp:597-623 | scheduling a node that is already the schedule's entry appends it again: it occurs twice, and it is gone from the tree when its second removal comes |
| RemoveList.UpdateKeepsUnique | pybind11/cloudComPy.cpp:597-623 | scheduling a node not yet scheduled, on a schedule without nesting or repetition, repeats nothing |
| RemoveList.AddToRemoveListOnce | pybind11/cloudComPy.cpp:597-623 | the intended scheduling: a node already scheduled leaves the schedule as it is, any other is scheduled as before; covers the node and the old entries, and keeps a schedule without nesting or repetition so |
| RemoveList.RemovalsAreSafe | pybind11/cloudComPy.cpp:799-809 | removing the entries of a schedule without nesting or repetition in order never meets an entry that an earlier removal already took away |
| EntityMerger.EntriesMembers | pybind11/cloudComPy.cpp:638-675 | null inputs are skipped: a node is collected exactly when it is a non-null input of the group (plain cloud, or mesh with plain-cloud vertices) |
| EntityMerger.EntriesStep | pybind11/cloudComPy.cpp:638-675 | one more input adds itself to the group's entries when it belongs to the group, and nothing otherwise |
| EntityMerger.PushKeepsClassification | pybind11/cloudComPy.cpp:646-656 | pushing a cloud and swapping it with the first when it is the first's ancestor keeps the clouds a permutation of the inputs with a first cloud that no other cloud is above, and in input order when the inputs' own first cloud is topmost |
| EntityMerger.SwapKeepsTopmost | pybind11/cloudComPy.cpp:649-656 | after the swap no collected cloud is above the new first cloud, and the clouds are the same multiset |
| EntityMerger.TopmostPrefix | pybind11/cloudComPy.cpp:649-655 | when the first of the clouds with the new one is topmost, it already was, and the new one is not above it (no swap happens) |
| EntityMerger.ClassifyCloudStep | pybind11/cloudComPy.cpp:643-656 | collecting one more plain-cloud input keeps the classification state |
| EntityMerger.ClassifyOtherStep | pybind11/cloudComPy.cpp:638-675 | a null input, a mesh with plain-cloud vertices (collected) or any other input (skipped) keeps the classification state |
| EntityMerger.PushCloud | pybind11/cloudComPy.cpp:646-656 | the clouds after collecting `c`: appended, then swapped with the first cloud when `c` is above it |
| EntityMerger.CollectedStep | pybind11/cloudComPy.cpp:643-656 | one more input pushes itself onto the collected clouds (swapped to the front when it is above the first) when it is a plain cloud, and changes nothing otherwise |
| EntityMerger.CollectedIsClassified | pybind11/cloudComPy.cpp:638-675 | the collected clouds are the plain-cloud inputs up to order, no collected cloud is above the first, and they are in input order when the inputs' first cloud is already topmost; the meshes are the mesh inputs in order |
| EntityMerger.ClassifyForMerge | pybind11/cloudComPy.cpp:633-681 | the clouds are exactly the plain-cloud inputs pushed one by one, each swapped with the first cloud when it is the first's ancestor; the meshes are the mesh inputs in order; hence a permutation with no cloud above the first |
| EntityMerger.CloudKinds | pybind11/cloudComPy.cpp:643-646 | every collected cloud is a plain point cloud |
| EntityMerger.FuseProgress | pybind11/cloudComPy.cpp:747-784 | until an append fails the appended count is the count tried and the size grows by each appended cloud's size; a failure is the last one tried |
| EntityMerger.FuseConcatenates | pybind11/cloudComPy.cpp:747-755 | when an append of the right size puts the new points after the old ones, a fusion without failure is the first cloud's points followed by every appended cloud's points, in order |
| EntityMerger.FuseStopsAtFailure | pybind11/cloudComPy.cpp:780-784 | once an append failed, the clouds after it change nothing |
| EntityMerger.BlocksAppend | pybind11/cloudComPy.cpp:768-776 | one more appended block adds its size worth of the next index at the end of the field |
| EntityMerger.BlockAt | pybind11/cloudComPy.cpp:768-776 | the points of block b start after the points of the blocks before it and all carry the index from + b |
| EntityMerger.BlocksLayout | pybind11/cloudComPy.cpp:768-776 | the index field has one entry per point, and the points of the b-th block (after the points of the blocks before it) carry b |
| EntityMerger.BlocksSorted | pybind11/cloudComPy.cpp:768-776 | the index field never decreases in point order and its values are the block indices |
| EntityMerger.CandidateCoversCloud | pybind11/cloudComPy.cpp:757-763 | removing the candidate (the cloud, or its single-child group) removes the cloud |
| EntityMerger.CandidateSparesFirst | pybind11/cloudComPy.cpp:757-763 | the candidate of another cloud that is not above the first cloud is neither the first cloud nor above it |
| EntityMerger.CandidatesDistinct | pybind11/cloudComPy.cpp:757-763 | two different clouds never have the same candidate |
| EntityMerger.CoversTransfer | pybind11/cloudComPy.cpp:765-766 | a node covered by the old schedule stays covered by the updated one |
| EntityMerger.ScheduleStep | pybind11/cloudComPy.cpp:757-766 | scheduling the candidate of one more appended cloud keeps the schedule without nesting, made of candidates only, covering every appended cloud |
| EntityMerger.ScheduleStepUnique | pybind11/cloudComPy.cpp:757-766 | for distinct plain clouds the schedule never holds a node twice |
| EntityMerger.MergedFirstSurvives | pybind11/cloudComPy.cpp:798-810 | with the first cloud topmost and not given twice, it is still in the tree after the removals and holds the merged cloud |
| EntityMerger.FirstHoldsMerged | pybind11/cloudComPy.cpp:798-810 | the first cloud, given once and topmost, is still in the tree after the removals and holds the merged cloud |
| EntityMerger.AppendedGone | pybind11/cloudComPy.cpp:798-808 | each of the first n appended clouds is gone from the tree after the removals |
| EntityMerger.RemovalsSafeAfterSet | pybind11/cloudComPy.cpp:799-809 | growing the first cloud changes no link, so each scheduled node is still in the tree when its turn to be removed comes |
| EntityMerger.ScheduleRemovesAppended | pybind11/cloudComPy.cpp:798-809 | removing the schedule of the first n appended clouds keeps the first cloud holding the merged cloud, takes the appended clouds out, and never meets a node already removed |
| EntityMerger.AppendedCloudsRemoved | pybind11/cloudComPy.cpp:798-808 | every appended cloud is gone from the tree after the removals |
| EntityMerger.ReadsBeforeMerge | pybind11/cloudComPy.cpp:747-752 | when no later input is the first cloud grown in place, the points read for a later cloud are the ones it had before the merge |
| EntityMerger.FusedStep | pybind11/cloudComPy.cpp:747-776 | a successful append moves the accumulated points, the appended count and the index field on by one cloud |
| EntityMerger.FusedFailure | pybind11/cloudComPy.cpp:780-784 | a failed append is where the fusion stops |
| EntityMerger.ScheduledStep | pybind11/cloudComPy.cpp:765-766 | scheduling the candidate only when the originals are deleted moves the schedule state on by one cloud |
| EntityMerger.FuseStep | pybind11/cloudComPy.cpp:747-755 | one more append: success when the size grew by exactly the appended count, failure otherwise |
| EntityMerger.IndexStep | pybind11/cloudComPy.cpp:768-776 | the index field after one more cloud is the old field followed by that cloud's size worth of the next index |
| EntityMerger.ScheduleAppended | pybind11/cloudComPy.cpp:765-766 | AddToRemoveList is called only when the originals are deleted, and keeps the schedule state |
| EntityMerger.MergeCompleted | pybind11/cloudComPy.cpp:708-787 | when every cloud was appended, the result is the merged cloud as specified |
| EntityMerger.MergeStopped | pybind11/cloudComPy.cpp:780-784 | when an append failed, the result is the cloud as it was at that point |
| EntityMerger.AppendStart | pybind11/cloudComPy.cpp:710-744 | before the first append nothing is fused, the index field is all zeros over the first cloud's points, and nothing is scheduled |
| EntityMerger.AppendNext | pybind11/cloudComPy.cpp:747-784 | one turn of the append loop: on success the fusion and schedule states move on by one cloud; on failure the result is the merged cloud as it stands |
| EntityMerger.TagAppended | pybind11/cloudComPy.cpp:773-776 | the `countAdded` entries from `countBefore` on are set to the index, the ones before are kept |
| EntityMerger.AppendClouds | pybind11/cloudComPy.cpp:708-787 | the first cloud keeps its identity and fields (plus the index field when requested); unless it is itself read again later, its points are those the appends produced, stopping at the first failure (the fusion, whose counts `FuseProgress` and whose contents `MergedPointsConcatenate` state), and the index field gives each point the position of its cloud; with originals deleted the schedule has no nesting and is made of the appended clouds' candidates, covering each; without, nothing is scheduled |
| EntityMerger.RemoveScheduled | pybind11/cloudComPy.cpp:799-809 | the scheduled nodes are removed one after the other |
| EntityMerger.MergedPointsConcatenate | pybind11/cloudComPy.cpp:747-784 | with an append that concatenates when the size check passes and no failed append, the merged cloud holds the first cloud's points followed by the points of every other cloud, in order |
| EntityMerger.MergeClouds | pybind11/cloudComPy.cpp:694-811 | no result (and no change) exactly when the index field is requested, missing and cannot be added; otherwise the merged cloud, the first cloud itself when the originals are deleted and a new one otherwise, and the tree without the schedule or unchanged |
| EntityMerger.MergedCloudReplacesInputs | pybind11/cloudComPy.cpp:798-810 | with originals deleted, the first cloud topmost and no cloud given twice, the first cloud stays in the tree holding the result, every appended cloud is gone, and each removal finds its node still present |
| EntityMerger.MergeMeshes | pybind11/cloudComPy.cpp:813-832 | a visible "Merged mesh" over a disabled "vertices" cloud, into which the meshes are merged in order up to the first failure |
| EntityMerger.MergeEntities | pybind11/cloudComPy.cpp:626-835 | the clouds merged are the classification's clouds in its order; clouds and meshes are never mixed and clouds win; with clouds, the cloud merge; with meshes only, the mesh merge; with neither, no result and no change |
| Components.DescendingIsStrictWeakOrder | pybind11/cloudComPy.cpp:310-313 | the comparator is irreflexive, asymmetric and transitive, and two entries are tied exactly when their sizes are equal |
| Components.InsertSorted | pybind11/cloudComPy.cpp:352 | inserting into a non-increasing sequence keeps it non-increasing and adds exactly the entry |
| Components.InsertMembers | pybind11/cloudComPy.cpp:352 | inserting adds exactly the entry, one longer, and the head is the entry or the old head |
| Components.SortBySize | pybind11/cloudComPy.cpp:352 | a sort with the promise of ParallelSort and DescendingCompOperator exists: non-increasing sizes and a permutation of the entries |
| Components.Decimal | pybind11/cloudComPy.cpp:389 | the decimal writing has at least one digit, exactly one for numbers below 10 |
| Components.DecimalInjective | pybind11/cloudComPy.cpp:389 | different counters are written differently |
| Components.ComponentNamesDistinct | pybind11/cloudComPy.cpp:389 | the names "CC#k" of different counters differ |
| Components.MaterialisedNamesAndCount | pybind11/cloudComPy.cpp:366-399 | the component clouds are named CC#0, CC#1, ... with no gap, at most one per component at or above the threshold, and exactly one each when no clone fails |
| Components.ResidualSizes | pybind11/cloudComPy.cpp:400-416 | each component below the threshold adds exactly its size to the residual selection |
| Components.ResidualIndicesAreSmallPoints | pybind11/cloudComPy.cpp:402-407 | the intended residual selection holds exactly the points of the components below the threshold |
| Components.ResidualUsesLocalIndices | pybind11/cloudComPy.cpp:404-407 | with components {0,1,2}, {3}, {4} and threshold 2, the code selects point 0 twice where points 3 and 4 were meant |
| Components.SortedEntriesGiveVisitOrder | pybind11/cloudComPy.cpp:344-354 | sorting the entries (i, size of component i) gives each component once, by non-increasing size |
| Components.FillSortEntries | pybind11/cloudComPy.cpp:346-350 | the sort buffer holds (i, size of component i) for every component, in order |
| Components.VisitOrder | pybind11/cloudComPy.cpp:330-368 | the components are visited each once, by non-increasing size in the library sort's order when sorted, in their own order otherwise |
| Components.AppendPositions | pybind11/cloudComPy.cpp:403-407 | a small component adds the positions 0 .. size - 1 to the residual selection |
| Components.VisitStep | pybind11/cloudComPy.cpp:366-420 | visiting one component adds its named clone (large and cloned) or its positions (small) |
| Components.VisitComponents | pybind11/cloudComPy.cpp:358-420 | the clouds made are those of the large components whose clone succeeds, in visit order and named consecutively; the residual selection is that of the small ones |
| Components.CreateComponentsClouds | pybind11/cloudComPy.cpp:317-441 | nothing without a cloud or components; otherwise the component clouds in sorted (or, when the sort buffer cannot be reserved, original) order and exactly one residual |
| ConnectedComponents.AsUnsigned | pybind11/cloudComPy.cpp:528 | comparing a size with the `int` minimum reads a negative minimum as a value of at least 2^31 |
| ConnectedComponents.AsOctreeLevel | pybind11/cloudComPy.cpp:509 | the octree level is cut to an `unsigned char`, unchanged for 0 .. 255 |
| ConnectedComponents.WithoutLabels | pybind11/cloudComPy.cpp:552 | deleting the label field removes it, adds no field, keeps every other field and changes nothing else of the cloud |
| ConnectedComponents.ProcessCloud | pybind11/cloudComPy.cpp:472-566 | one plain cloud: stop on octree or label-field failure; otherwise the large components are counted; too many ends the call with the label field deleted; else the field is deleted, the component clouds created and the cloud counted as done |
| ConnectedComponents.CountLargeComponents | pybind11/cloudComPy.cpp:524-530 | the safety test counts exactly the components with at least the minimum number of points |
| ConnectedComponents.LargeCountSnoc | pybind11/cloudComPy.cpp:524-530 | the safety-test loop counts one more component when it is at or above the minimum |
| ConnectedComponents.FilterClouds | pybind11/cloudComPy.cpp:457-465 | the clouds are the entities of a cloud kind, in order |
| ConnectedComponents.ScanUnfold | pybind11/cloudComPy.cpp:472-567 | one more cloud in the loop is one more step of the scan while it runs |
| ConnectedComponents.StoppedScan | pybind11/cloudComPy.cpp:483-500 | after a break, the remaining clouds are left as they are |
| ConnectedComponents.ExtractConnectedComponents | pybind11/cloudComPy.cpp:443-572 | the result is the scan of the cloud entities: a pair after too many components, otherwise the triple; the clouds as the scan leaves them |
| ConnectedComponents.StepTouchesLabelsOnly | pybind11/cloudComPy.cpp:489-553 | one turn of the loop appends the cloud as it was or without its label field; a non-plain cloud is untouched; when the loop still runs after the turn, a plain cloud has lost its label field |
| ConnectedComponents.ScanLastStep | pybind11/cloudComPy.cpp:489-553 | the scan of one more cloud keeps the earlier clouds as they were and touches only the label field of the new one |
| ConnectedComponents.ScanOnlyRemovesLabels | pybind11/cloudComPy.cpp:489-553 | each cloud is left as it was or without its label field; non-plain clouds are untouched; when the loop runs to the end no plain cloud keeps a label field |
| ConnectedComponents.ScanCounts | pybind11/cloudComPy.cpp:450-566 | at most the plain clouds are done, all of them when the loop runs to the end, where the count accumulated over all clouds equals their total and does not exceed the maximum; too many means the count exceeds the maximum; at most one residual per cloud done |
| ConnectedComponents.ScanCompletes | pybind11/cloudComPy.cpp:526-543 | with every labelling successful, the loop runs to the end exactly when there is no plain cloud or the large components over all clouds do not exceed the maximum |
| ConnectedComponents.ScanStaysStopped | pybind11/cloudComPy.cpp:533-543 | with every labelling successful, a loop stops only once the accumulated count exceeds the maximum |
| Slicing.ClampEnvelopeType | pybind11/cloudComPy.cpp:288-289 | the envelope type is kept in 0 .. 2, unchanged inside, 0 below and 2 above |
| Slicing.EnvelopeTypeOfCases | pybind11/cloudComPy.cpp:287-290 | values up to 0 give LOWER, 1 gives UPPER, from 2 on FULL |
| Slicing.EnvelopeTypeOfOnto | pybind11/cloudComPy.cpp:287-290 | each envelope type comes from exactly one value of 0 .. 2 |
| Slicing.MeshesOfMembers | pybind11/cloudComPy.cpp:270-274 | exactly the entities of a mesh kind are kept |
| Slicing.SplitKeepsOrder | pybind11/cloudComPy.cpp:268-280 | the split keeps input order: splitting a concatenation concatenates the splits |
| Slicing.SplitCounts | pybind11/cloudComPy.cpp:268-280 | every entity goes to exactly one of meshes, clouds or the dropped ones |
| Slicing.SplitEntities | pybind11/cloudComPy.cpp:266-280 | the meshes and the clouds of the entities, in order |
| Slicing.SettingsRoundTrip | pybind11/cloudComPy.cpp:285-290 | every switch of the request reaches the library: the settings give back the request with its envelope type clamped |
| Slicing.SettingsOfClamped | pybind11/cloudComPy.cpp:287-290 | an out-of-range envelope type gives the same settings as its clamp |
| Slicing.SettingsSeeClampedRequest | pybind11/cloudComPy.cpp:285-290 | two requests give the library the same settings exactly when they agree once their envelope types are clamped: every switch is handed on, and an out-of-range type acts as its clamp |
| Slicing.ExtractSlicesAndContours | pybind11/cloudComPy.cpp:245-301 | the slicing is called on the clouds and meshes of the entities with the clamped envelope type, and its output is returned |

## Left out

- Geometry is not modelled: coordinates, colours, normals, bounding boxes and
  transforms, and the floating-point parameters `maxEdgeLength`,
  `levelSetGridStep` and `gap`. A point is an opaque value.
- The library calls are parameters of the model: octree computation,
  connected-component labelling and extraction, `partialClone`,
  `ParallelSort`, `operator+=`, `ccMesh::merge` and
  `ExtractSlicesAndContoursClone`. Their results, and whether an allocation
  succeeds, are given, not computed.
- `cloneThis` is not a parameter: a clone is taken to be an exact copy of the
  cloud, both for the first cloud when the originals are kept and for each
  appended cloud, whose points are then the points of the original.
- Python bindings, module registration, file I/O, ICP, interpolation and
  trace output (`CCTRACE`) are not part of this model.
- Random colours, global shift and scale, and display state are not modelled:
  `setEnabled`, `showSF`, `setCurrentDisplayedScalarField`,
  `setDisplay_recursive` and `computeMinAndMax`.
- Memory ownership is not modelled: deleting the component selections, the
  residual clouds leaked on the too-many-components path, and the objects
  removed from the tree.
- EntityMerger.ClassifyForMerge: the out-of-memory return of a null result
  during classification is not modelled.
- EntityMerger.MergeClouds: a failing `cloneThis` (the source then
  dereferences a null pointer) is not modelled. A failing `resizeSafe` of the
  index field is not modelled either.
- EntityMerger.MergedCloudIs: `operator+=` is taken to change the points
  only; the scalar fields, children and other contents that the library may
  merge in from the appended cloud are not modelled, so the merged cloud's
  fields are the first cloud's (plus the index field).
- EntityMerger.MergeClouds: a cloud given twice with `deleteOriginalClouds`
  is scheduled twice (see "## Findings"); the source then removes and
  deletes an object it has already deleted, while the model's second
  removal of a node no longer in the tree changes nothing. This is why
  `MergedCloudReplacesInputs` asks for distinct clouds.
- EntityMerger.MergeMeshes: whether `ccMesh::merge` succeeds is a function of
  the mesh and `createSubMeshes`, so a mesh given twice succeeds or fails the
  same way both times.
- EntityMerger.MergedCloudIs: the index field holds integers. The source
  stores them as `ScalarType` floats, and the float rounding of very large
  indices is not modelled.
- EntityMerger.MergedCloudIs: when the first cloud is grown in place and also
  appears among the later inputs, the clouds read later are not related to
  the fused points. The contract is stated for inputs without that repetition
  (`ReadsOriginal`). The source reads the grown cloud there.
- Components.VisitOrder: `ParallelSort` is the `sort` parameter of the
  library, of which only non-increasing sizes and a permutation of the
  entries are assumed; the order of equal-sized components is whatever that
  parameter gives.
- Components.CreateComponentsClouds: the model does not cover a residual
  selection that cannot grow. The source then deletes it and dereferences a
  null pointer for the next small component.
- Components.CreateComponentsClouds: non-plain clouds go through
  `ccPointCloud::From` instead of `partialClone`, and the model uses one clone
  parameter for both.
- ConnectedComponents.ScanCounts: `realComponentCount` is an unbounded
  integer here. The source's `int` could overflow after 2^31 large
  components.
- ConnectedComponents.ExtractConnectedComponents: the source edits the label
  field of the input clouds in place. The model returns the cloud entities as
  the call leaves them, in filtered order. A null entity (which the source
  dereferences) cannot be given. A cloud listed twice is processed as two
  independent copies: the second copy still has the label field the first
  visit deleted, whereas the source sees the deletion (and may then fail to
  allocate the field and stop).
- Slicing.SplitEntities: the casts `ToMesh` and `ToGenericPointCloud` are
  taken to succeed for entities of their kind.
- Slicing.ExtractSlicesAndContours: the clip box and the floating-point
  parameters are not handed to the library parameter.

## Findings

| source | as written | input that shows it | evidently intended | confidence | as-written member | corrected member |
|---|---|---|---|---|---|---|
| pybind11/cloudComPy.cpp:597-623 | `isAncestorOf` is strict, so `AddToRemoveListPy` appends a node that is already in the list a second time; the removal loop (lines 799-809) then detaches and deletes it twice | `MergeEntitiesPy` on clouds [A, B, B] with `deleteOriginalClouds`: B (or its single-child group) is scheduled twice | a node already in the list is not scheduled again, so the schedule has no repetition and every removal finds its node | not executed; a repeated input is unusual, but the double delete is undefined behaviour | RemoveList.RescheduledTwice | RemoveList.AddToRemoveListOnce |
| pybind11/cloudComPy.cpp:404-407 | `refCloud->addPointIndex(i)` adds the loop counter `i`, the position of the point within the small component | components {0,1,2}, {3}, {4} with `minPointsPerComponent` 2: the residual selects point 0 twice | add `compIndexes->getPointGlobalIndex(i)`, the point's index in the cloud, so the residual holds points 3 and 4 | not executed; the sizes agree either way (`ResidualSizes`), only the points differ | Components.ResidualUsesLocalIndices | Components.ResidualIndicesAreSmallPoints |
