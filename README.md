# Graph document engine of dialogue-flow-poc, modelled in Dafny

This project models the core of a node-graph editor for branching dialogue: the
stores that hold graphs, nodes, pins and edges, the undo history, the project
hierarchy tree, the validator, and the exporter and importer with schema
migration. It also proves properties of that model. It is written against the
TypeScript sources of the original repository.

Modules, in dependency order:

- `Wrappers`, `Strings`, `Json`, `Lists`, `Sorting`: shared building blocks.
  - `Strings` holds the character-code order that stands in for `localeCompare`, decimal rendering and `trim`.
  - `Json` holds JSON values whose objects keep insertion order, `Lookup` and the object spread.
  - `Lists` holds id-list helpers.
  - `Sorting` holds a stable insertion sort by a string key, proved sorted, a permutation, and unique among sorted permutations when keys are distinct.
- `Types`, `Defaults`: the document model (`types.ts`) and the default pin table.
- `GraphOps`: the graph store's state as a value (four id-keyed maps) and every store action as a function of it. It also defines the referential-integrity invariant `Consistent`, which every action is proved to keep.
- `NodeDeletion`: `deleteNodes` as a function. The container cascade is proved to go exactly one level deep, as the code does.
- `History`: the undo middleware as a class (`Temporal`). It keeps at most 100 past snapshots, and it has pause, resume, undo and redo.
- `GraphStore`: the graph store as a class.
  - Each action is a method whose loops update the maps in place.
  - Each is proved equal to its `GraphOps` function.
  - Each records the prior snapshot in the history.
- `Tree`, `ProjectStore`: the hierarchy helpers (`findAndRemoveNode`, `insertNode`, `isDescendant`, `containsNode`, `updateTreeNode`) as recursive functions, and the project store as a class.
- `Schemas`: the import schema as decoders from JSON to typed records. A decoder fails exactly where `parse` throws.
- `StableStringify`, `Serializer`: the canonical key order and two-space rendering, and `exportProject`. The export is proved sorted, exact, and independent of map iteration order.
- `Migrations`, `Importer`: `migrateToLatest` and `importProject`. The import loops are proved equal to a flattening function. A failed import is proved to leave both stores unchanged.
- `RoundTrip`: export, import, export again. The canonical export of stores whose names are non-empty passes migration and the schema and decodes to the exported document; re-exporting the imported stores prints the same text.
- `Validator`: `validateGraph` as loops proved equal to rule functions. The lemmas characterise exactly when each warning appears.
- `UIStore`, `FlowMappings`: the navigation and viewport store, and the mapping to canvas nodes and edges.

Where the code and its design description disagree, the model follows the code:

- Deleting a container removes its inner graph, the inner graph's nodes, their pins and the inner graph's listed edges. It does not descend into containers inside the inner graph (`NodeDeletion.DeleteContainerOneLevel`).
- `moveTreeNode` only guards against a descendant of the moved node. A move under the node itself passes the guard and drops the node with its subtree (`Tree.MoveUnderItselfDrops`).
- A move under a parent that does not exist also drops the node (`Tree.MoveToMissingParentDrops`).
- `createEdge` checks only that the source pin exists (`GraphOps.CreateEdgeIgnoresTarget`).

## Model

| member | source | states |
|---|---|---|
| Types.NodeTypeFromName | src/models/types.ts:6-16 | a tag read back names a node kind whose tag is that string; any other string is rejected |
| Types.NodeTypeNameRoundTrip | src/models/types.ts:6-16 | every node kind's tag reads back as that kind, so tags and kinds correspond one to one |
| Types.DirectionFromName | src/models/types.ts:18 | `in` and `out` are the only pin directions; each reads back to a direction with that name |
| Types.StrArray | src/models/types.ts:71-75 | a string list becomes a JSON array with one item per string |
| Types.DataFields | src/models/types.ts:38-102 | a data record's object starts with its `type` tag, has no repeated keys, and has `innerGraphId` exactly for the two container kinds |
| Types.TreeNodeTypeFromName | src/models/types.ts:119 | a hierarchy tag read back names a tree node kind with that tag |
| Types.TreeNodeTypeNameRoundTrip | src/models/types.ts:119 | every tree node kind's tag reads back as that kind |
| Defaults.DefaultPins | src/models/defaults.ts:9-20 | every kind has one input pin except `annotation`, which has none; a list of output names has one name per output |
| Defaults.OutputName | src/models/defaults.ts:3-7 | output `i` has a configured name exactly when the kind lists names and `i` is within the list |
| Defaults.TerminalKindsHaveNoOutputs | src/models/defaults.ts:16-19 | `jump`, `end` and `annotation` are exactly the kinds with no output pins |
| Defaults.BranchingKinds | src/models/defaults.ts:13-14 | `choice` and `condition` are exactly the kinds with two outputs, named `Option 1`/`Option 2` and `True`/`False` |
| Defaults.ContainerKinds | src/models/defaults.ts:10-11 | `dialogueContainer` and `flowFragment` are exactly the kinds configured with one input and one output named `Exit`; only they, `choice` and `condition` name their outputs |
| Json.Lookup | src/services/validator.ts:60 | reading a key gives nothing exactly when no field has that key, and otherwise the value of a field with that key |
| Json.LookupAt | src/services/validator.ts:60 | with distinct keys, reading a field's key gives that field's value |
| Json.PropertyKey | src/stores/graphStore.ts:176 | `newGraphs[innerGraphId]` looks the value up by `String(innerGraphId)`; a string keys as itself |
| Json.JoinedKeys | src/stores/graphStore.ts:176 | an array keys as its elements' keys joined by commas; a one-string array keys as that string |
| Json.ArrayKeys | src/stores/graphStore.ts:176 | `["a", "b"]` keys as `"a,b"` and `["a", null]` as `"a,"` |
| Json.Put | src/services/serializer.ts:20-22 | `result.name = …` on an object: assigning a key keeps the length when the key exists and appends a field when it does not |
| Json.PutLookup | src/services/serializer.ts:20-22 | after assigning `k`, reading `k` gives the new value and every other key reads as before |
| Json.PutKeys | src/services/serializer.ts:20-22 | assigning adds exactly the assigned key to the keys |
| Json.PutUnique | src/services/serializer.ts:20-22 | assigning keeps keys distinct |
| Json.SpreadLookup | src/stores/graphStore.ts:238 | in `{ ...base, ...patch }` a key of the patch reads as in the patch and any other key as in the base |
| Json.SpreadUnique | src/stores/graphStore.ts:238 | spreading onto a record with distinct keys keeps keys distinct |
| Json.SpreadKeepsPrefixKeys | src/stores/graphStore.ts:238 | spreading keeps the base's keys in their places and only appends new keys |
| Json.PutPreservesKeys | src/services/serializer.ts:20-22 | assigning keeps the existing keys in their places |
| Strings.LeReflexive | src/services/serializer.ts:11 | the comparison used for sorting ids is reflexive |
| Strings.LeAntisymmetric | src/services/serializer.ts:11 | two ids that compare both ways are equal |
| Strings.LeTransitive | src/services/serializer.ts:11 | the comparison is transitive |
| Strings.LeTotal | src/services/serializer.ts:11 | any two ids compare one way or the other |
| Strings.NatToString | src/services/validator.ts:32 | a count prints as a non-empty run of decimal digits with no leading zero |
| Strings.IntToString | src/services/migrations.ts:12 | a version prints non-empty, with a leading minus exactly when negative |
| Strings.TrimStart | src/services/validator.ts:40 | trimming the front removes exactly a whitespace prefix and leaves a string not starting with whitespace |
| Strings.TrimEnd | src/services/validator.ts:40 | trimming the back removes exactly a whitespace suffix and leaves a string not ending with whitespace |
| Strings.TrimEmptyIffBlank | src/services/validator.ts:40 | `label.trim()` is empty exactly when every character of the label is whitespace |
| Sorting.InsertBy | src/services/serializer.ts:10-12 | inserting keeps every element and adds exactly the new one |
| Sorting.SortBy | src/services/serializer.ts:10-12 | `sortById` returns a permutation of its input |
| Sorting.InsertBySorted | src/services/serializer.ts:10-12 | inserting into a sorted list keeps it sorted |
| Sorting.SortBySorted | src/services/serializer.ts:10-12 | `sortById` returns its input ordered by id |
| Sorting.InsertByAtEnd | src/services/serializer.ts:11 | an element whose key is not smaller than any other goes last, so the sort is stable |
| Sorting.SortByIdentity | src/services/serializer.ts:11 | sorting an already sorted list leaves it unchanged |
| Sorting.SortedUnique | src/services/serializer.ts:10-12 | two sorted permutations of one another are equal when keys identify elements |
| Sorting.SortByPermutationInvariant | src/services/serializer.ts:32 | the enumeration order of the input does not change the sorted output |
| Sorting.InsertByKeysDistinct | src/services/serializer.ts:11 | inserting an element with a new key keeps keys distinct |
| Sorting.SortByKeysDistinct | src/services/serializer.ts:10-12 | sorting keeps keys distinct |
| Sorting.SortedSameElements | src/lib/stableStringify.ts:7-9 | two sorted lists with distinct keys and the same elements are equal |
| StableStringify.Canon | src/lib/stableStringify.ts:4-13 | the replacer keeps each value's kind and size, leaves strings, numbers, booleans and null unchanged, and keeps arrays as arrays |
| StableStringify.CanonItems | src/lib/stableStringify.ts:5 | array items are each rewritten, none dropped |
| StableStringify.CanonFields | src/lib/stableStringify.ts:6-10 | an object's entries are each rewritten under the same key |
| StableStringify.CanonSorted | src/lib/stableStringify.ts:6-10 | after the replacer, every object at every depth has its keys sorted |
| StableStringify.CanonKeepsArrayOrder | src/lib/stableStringify.ts:5 | arrays keep their order; only object keys are sorted |
| StableStringify.CanonLookup | src/lib/stableStringify.ts:6-10 | sorting an object's entries keeps its key set, and each key reads the rewritten value |
| StableStringify.CanonOfCanonical | src/lib/stableStringify.ts:4-13 | a value already sorted at every depth is left unchanged |
| StableStringify.CanonIdempotent | src/lib/stableStringify.ts:4-13 | applying the replacer twice is the same as once |
| StableStringify.CanonOrderIndependent | src/lib/stableStringify.ts:1-16 | two values that differ only in the order of object keys become equal after the replacer |
| StableStringify.Indent | src/lib/stableStringify.ts:14 | each depth indents by two spaces |
| StableStringify.Hex4 | src/lib/stableStringify.ts:2 | a `\u` escape has four hex digits |
| StableStringify.EscapeChar | src/lib/stableStringify.ts:2 | every character prints as at least one character |
| StableStringify.Quote | src/lib/stableStringify.ts:2 | a string prints between double quotes |
| StableStringify.Render | src/lib/stableStringify.ts:2-15 | arrays print in brackets, objects in braces and strings in quotes |
| StableStringify.StringifyOrderIndependent | src/lib/stableStringify.ts:1-16 | the output text does not depend on the order in which object keys were inserted |
| StableStringify.StringifyCanon | src/lib/stableStringify.ts:1-16 | stringifying a value already passed through the replacer gives the same text |
| StableStringify.RenderOneField | src/lib/stableStringify.ts:14 | a one-field object prints on three lines with a two-space indent |
| StableStringify.CanonWellFormed | src/lib/stableStringify.ts:6-10 | sorting keys keeps every object at every depth free of repeated keys |
| StableStringify.CanonFieldAt | src/lib/stableStringify.ts:6-10 | in an object with distinct keys, each key of the sorted object reads the rewritten value of that key |
| StableStringify.CanonAbsent | src/lib/stableStringify.ts:6-10 | a key the object lacks is still missing after sorting |
| StableStringify.SameUpToKeyOrderReflexive | src/lib/stableStringify.ts:1-16 | a well-formed value differs from itself only in key order |
| Schemas.StrField | src/models/schemas.ts:9 | `z.string()` accepts a field exactly when it holds a string, and gives that string |
| Schemas.NameField | src/models/schemas.ts:47 | `z.string().min(1)` accepts exactly a non-empty string, giving that string, and rejects `""` and non-strings |
| Schemas.OptStrField | src/models/schemas.ts:12 | `z.string().optional()` accepts a missing key as `undefined` and a string as itself, and rejects exactly a present non-string |
| Schemas.NumField | src/models/schemas.ts:4 | `z.number()` accepts exactly a number field |
| Schemas.ArrField | src/models/schemas.ts:40 | `z.array(...)` requires the field to be an array |
| Schemas.DecodeAll | src/models/schemas.ts:40-41 | an array is accepted exactly when every item is, and then it decodes item by item in order |
| Schemas.DecodePosition | src/models/schemas.ts:3-6 | a position is accepted exactly when it is an object with numbers under `x` and `y`, and then holds those numbers |
| Schemas.DecodePin | src/models/schemas.ts:8-15 | a pin is accepted exactly when it is an object whose `id` and `nodeId` are strings, whose direction is `in` or `out` and whose optional strings are absent or strings; it then carries those values |
| Schemas.DirectionField | src/models/schemas.ts:11 | `z.enum(['in', 'out'])` accepts exactly the two direction tags, each as its direction |
| Schemas.DecodeEdge | src/models/schemas.ts:17-23 | an edge is accepted exactly when it is an object with string `id`, `fromPinId` and `toPinId` and absent-or-string `label` and `color`; it then carries those values |
| Schemas.TypeField | src/models/schemas.ts:27-38 | the node type is accepted exactly when it is one of the ten tags, and decodes to that kind |
| Schemas.DecodeNode | src/models/schemas.ts:25-43 | a node is accepted exactly when it is an object with a string `id`, a known `type`, a valid position, two arrays of valid pins and an object `data`; it then carries the `id`, kind, position, both decoded pin arrays in order and the `data` fields |
| Schemas.DecodeGraph | src/models/schemas.ts:45-50 | a graph is accepted exactly when it is an object with a string `id`, a non-empty `name` and arrays of valid nodes and edges; it then carries the `id`, the `name` and both decoded arrays in order |
| Schemas.DecodeCharacter | src/models/schemas.ts:52-55 | a character is accepted exactly when it is an object with a string `id` and a non-empty `name`, and then carries both |
| Schemas.TreeTypeField | src/models/schemas.ts:66 | the tree node type is accepted exactly when it is one of the five tags, and decodes to that kind |
| Schemas.DecodeTreeNode | src/models/schemas.ts:57-71 | an accepted tree node has the object's `id`, its `type` tag, a non-empty `name` and its optional `graphId` |
| Schemas.DecodeTreeHead | src/models/schemas.ts:64-70 | a tree node's own fields are accepted exactly when it is an object with a string `id`, a known `type`, a non-empty `name`, an absent-or-string `graphId` and an array `children`; it then carries those values |
| Schemas.DecodeTreeNodes | src/models/schemas.ts:68 | an accepted child list has one decoded node per child |
| Schemas.TreeNodesCons | src/models/schemas.ts:68 | a non-empty child list is accepted exactly when its first child and the rest are, and decodes to the first child's node followed by the rest's, so the order is kept |
| Schemas.TreeNodesAcceptedAt | src/models/schemas.ts:68 | every child of an accepted child list is accepted on its own |
| Schemas.TreeNodesRejected | src/models/schemas.ts:68 | a rejected child list has a rejected child |
| Schemas.TreeNodeAccepted | src/models/schemas.ts:64-70 | a tree node is accepted exactly when its own fields pass and its `children` array is accepted as a whole; the decoded children are that array's |
| Schemas.TreeNodesAccepted | src/models/schemas.ts:68 | a child list is accepted exactly when every child is |
| Schemas.DecodeDoc | src/models/schemas.ts:73-82 | a document is accepted exactly when it is an object with a number `schemaVersion` of at least 1, a string `id`, a non-empty `name`, string timestamps and arrays of valid characters, tree nodes and graphs; it then carries those values and the three decoded arrays in order |
| Schemas.TreeNodeChecksEveryDepth | src/models/schemas.ts:63-71 | the lazy schema checks every node at every depth, so each has a non-empty name |
| Schemas.TreeNodesCheckEveryDepth | src/models/schemas.ts:63-71 | every node decoded from an accepted child list is named at every depth |
| Schemas.TreeNodeBadChild | src/models/schemas.ts:68 | one rejected child rejects its parent |
| Schemas.VersionMustBeNumber | src/models/schemas.ts:74 | a string `schemaVersion` rejects the document |
| Schemas.NameRequired | src/models/schemas.ts:76 | a missing or empty project name rejects the document |
| Schemas.DataMustBeObject | src/models/schemas.ts:42 | node `data` that is not an object rejects the node |
| Schemas.MinimalPinAccepted | src/models/schemas.ts:8-15 | a pin with only `id`, `nodeId` and `direction: "in"` is accepted, with no name or expressions |
| Schemas.MinimalEdgeAccepted | src/models/schemas.ts:17-23 | an edge without `label` or `color` is accepted |
| Schemas.EmptyDataNodeAccepted | src/models/schemas.ts:25-43 | a node of any kind with no pins and an empty `data` object is accepted |
| GraphOps.DefaultNodeData | src/stores/graphStore.ts:40-63 | `getDefaultNodeData` gives a record of the requested kind; the container kinds start with an empty `innerGraphId` and an empty label |
| GraphOps.InitialNodeData | src/stores/graphStore.ts:117-123 | a new node's data has its kind's tag, and a container's data names the inner graph created with it; other kinds have no `innerGraphId` |
| GraphOps.EmptyConsistent | src/stores/graphStore.ts:68-72 | the empty initial store is consistent: nothing refers to anything missing |
| GraphOps.SameShapeConsistent | src/stores/graphStore.ts:222-229 | a change that keeps every key and every cross-reference keeps the store consistent |
| GraphOps.AddGraphConsistent | src/stores/graphStore.ts:74-83 | `createGraph` under an unused id keeps the store consistent |
| GraphOps.AddInputPinsContents | src/stores/graphStore.ts:100-104 | the input loop adds exactly one `in` pin per new id, owned by the node, and touches no other pin |
| GraphOps.AddOutputPinsContents | src/stores/graphStore.ts:106-115 | the output loop adds exactly one `out` pin per new id, named by `outputNames[i]`, and touches no other pin |
| GraphOps.NewNodePinsContents | src/stores/graphStore.ts:96-115 | `newPins` holds exactly the input and output pin ids, each with its direction and configured name |
| GraphOps.CreationIdsFacts | src/stores/graphStore.ts:89-123 | ids from `generateId` that are all fresh are distinct from one another and from everything in the store |
| GraphOps.OwnedNewPins | src/stores/graphStore.ts:96-115 | the new node owns exactly its new input pins among `in` pins and its new output pins among `out` pins |
| GraphOps.PinsAfterCreation | src/stores/graphStore.ts:130 | after `{ ...s.pins, ...newPins }` the node owns exactly the new pins, as many as the kind's counts |
| GraphOps.CreateNodePins | src/stores/graphStore.ts:89-142 | a created node owns `inputCount` input pins and `outputCount` output pins, the outputs named as configured |
| GraphOps.AddNodeConsistent | src/stores/graphStore.ts:128-139 | adding a node to an existing graph's map and node list keeps the store consistent |
| GraphOps.AddPinsConsistent | src/stores/graphStore.ts:130 | adding pins under unused keys, owned by existing nodes, keeps the store consistent |
| GraphOps.CreateNodeSteps | src/stores/graphStore.ts:117-139 | creating a node is creating its inner graph (for containers), then the node, then its pins |
| GraphOps.NewNodePinsFit | src/stores/graphStore.ts:96-115 | the new pins sit under unused keys, each under its own id, and are owned by the new node |
| GraphOps.CreateNodeConsistent | src/stores/graphStore.ts:89-142 | `createNode` with fresh ids in an existing graph keeps the store consistent |
| GraphOps.MoveNodeConsistent | src/stores/graphStore.ts:222-229 | `moveNode` on an existing node keeps the store consistent |
| GraphOps.UpdateNodeDataEffect | src/stores/graphStore.ts:231-242 | `updateNodeData` changes only the node's data, and a key reads from the patch when the patch has it, else as before |
| GraphOps.UpdateNodeDataConsistent | src/stores/graphStore.ts:231-242 | `updateNodeData` keeps the store consistent, also for a missing node, which it leaves alone |
| GraphOps.AddPinConsistent | src/stores/graphStore.ts:244-253 | `addPin` with a fresh id on an existing node keeps the store consistent |
| GraphOps.AddOnePinConsistent | src/stores/graphStore.ts:246-251 | one new pin under an unused key, owned by an existing node, keeps the store consistent |
| GraphOps.UpdatePinConsistent | src/stores/graphStore.ts:290-297 | `updatePin` on an existing pin keeps the store consistent |
| GraphOps.PruneEdgeLists | src/stores/graphStore.ts:274-282 | filtering edge lists keeps every graph |
| GraphOps.RemovePinEffect | src/stores/graphStore.ts:255-288 | `removePin` deletes the pin and every edge at it, keeps every other edge and pin, and leaves the nodes alone |
| GraphOps.PruneEdgesConsistent | src/stores/graphStore.ts:269-282 | removing any set of edges together with their list entries keeps the store consistent |
| GraphOps.DropUnusedPinConsistent | src/stores/graphStore.ts:284 | deleting a pin no edge uses keeps the store consistent |
| GraphOps.RemovePinConsistent | src/stores/graphStore.ts:255-288 | `removePin` keeps the store consistent |
| GraphOps.DeleteEdgesEffect | src/stores/graphStore.ts:324-341 | `deleteEdges` removes the listed edges from the map and from every graph's list and keeps everything else |
| GraphOps.DeleteEdgesConsistent | src/stores/graphStore.ts:324-341 | `deleteEdges` keeps the store consistent |
| GraphOps.CreateEdgeEffect | src/stores/graphStore.ts:299-322 | `createEdge` changes nothing when the source pin or its node is missing, and otherwise adds the edge and appends it to the source node's graph |
| GraphOps.CreateEdgeIgnoresTarget | src/stores/graphStore.ts:299-308 | the target pin is not checked: an edge to a missing pin is created and leaves the store unwired |
| GraphOps.CreateEdgeConsistent | src/stores/graphStore.ts:299-322 | `createEdge` with a fresh id between pins of nodes in one graph keeps the store consistent |
| GraphOps.UpdateEdgeConsistent | src/stores/graphStore.ts:343-350 | `updateEdge` on an existing edge keeps the store consistent |
| GraphStore.CollectOwnedPins | src/stores/graphStore.ts:156-160 | the scan over all pins collects exactly the ids of the pins the node owns |
| GraphStore.CollectTouchingEdges | src/stores/graphStore.ts:164-168 | the scan over all edges collects exactly the edges with either end at a collected pin |
| GraphStore.CollectEdgesAtPin | src/stores/graphStore.ts:262-267 | the scan collects exactly the edges with either end at the removed pin |
| GraphStore.DeleteKeys | src/stores/graphStore.ts:215-216 | the deletion loops leave the map without exactly the collected keys |
| GraphStore.DeleteListed | src/stores/graphStore.ts:269-271 | deleting listed keys one by one leaves the map without exactly those keys |
| GraphStore.FilterEdgeLists | src/stores/graphStore.ts:276-281 | the loop over graphs filters every graph's edge list by the removed set; a graph with nothing removed stays as it was |
| GraphStore.PruneNothing | src/stores/graphStore.ts:274 | removing no edges leaves every edge list as it was, so skipping the loop for an empty list is the same |
| GraphStore.CascadeOne | src/stores/graphStore.ts:172-197 | one turn of the container loop is the per-node cascade step |
| GraphStore.RunCascade | src/stores/graphStore.ts:171-198 | the container loop applies the cascade step to the listed ids in order |
| GraphStore.RemovalNone | src/stores/graphStore.ts:201-214 | removing no node leaves every graph as it was |
| GraphStore.RemoveListed | src/stores/graphStore.ts:201-214 | the removal loop deletes the listed nodes and filters the node and edge lists of each one's graph |
| GraphStore.CreationFresh | src/stores/graphStore.ts:89-123 | ids drawn from the generator one after another are distinct and unused in the store |
| GraphStore.Store.constructor | src/stores/graphStore.ts:68-72 | the store starts empty and consistent, with no active graph and an empty undo history that records |
| GraphStore.Store.NewId | src/stores/graphStore.ts:75 | `generateId` returns an id never issued before and not used in the store, and changes nothing else |
| GraphStore.Store.Commit | src/stores/graphStore.ts:76 | a `set` replaces the tracked state and logs the old one in the history |
| GraphStore.Store.CreateGraph | src/stores/graphStore.ts:74-83 | `createGraph` adds an empty graph under a fresh id, named `Untitled Graph` by default, and keeps the store consistent |
| GraphStore.Store.SetActiveGraph | src/stores/graphStore.ts:85-87 | `setActiveGraph` changes only the active graph id; the history records an equal snapshot |
| GraphStore.Store.MakeInputPins | src/stores/graphStore.ts:100-104 | the input loop draws `inputCount` fresh ids and builds their `in` pins |
| GraphStore.Store.MakeOutputPins | src/stores/graphStore.ts:106-115 | the output loop draws `outputCount` fresh ids and builds their named `out` pins |
| GraphStore.Store.MakeNodePins | src/stores/graphStore.ts:96-115 | both pin loops together build `newPins` from fresh ids, the outputs after the inputs |
| GraphStore.Store.CreateNode | src/stores/graphStore.ts:89-142 | `createNode` draws fresh ids and pin counts from the defaults; it throws exactly when the given or active graph is missing, leaving store and history as they were, and otherwise yields the specified state and logs it |
| GraphStore.Store.DeleteNodes | src/stores/graphStore.ts:144-220 | `deleteNodes` yields the specified removal state and keeps the store consistent |
| GraphStore.Store.MoveNode | src/stores/graphStore.ts:222-229 | `moveNode` sets the node's position only |
| GraphStore.Store.UpdateNodeData | src/stores/graphStore.ts:231-242 | `updateNodeData` merges the patch into the node's data; a missing node leaves the state as it was |
| GraphStore.Store.AddPin | src/stores/graphStore.ts:244-253 | `addPin` adds a pin under a fresh id; the owner is not checked |
| GraphStore.Store.RemovePin | src/stores/graphStore.ts:255-288 | `removePin` yields the specified state without the pin and its edges |
| GraphStore.Store.UpdatePin | src/stores/graphStore.ts:290-297 | `updatePin` overrides the given fields of an existing pin |
| GraphStore.Store.CreateEdge | src/stores/graphStore.ts:299-322 | `createEdge` always returns a fresh id; it throws exactly when the source node's graph is missing, changing nothing; otherwise it adds the edge only when the source pin and its node exist, and logs only then |
| GraphStore.Store.DeleteEdges | src/stores/graphStore.ts:324-341 | `deleteEdges` yields the specified state without the listed edges |
| GraphStore.Store.UpdateEdge | src/stores/graphStore.ts:343-350 | `updateEdge` overrides the label or colour of an existing edge |
| GraphStore.Store.Hydrate | src/stores/graphStore.ts:352-354 | `hydrate` replaces the whole state and the active graph id |
| GraphStore.Store.Undo | src/stores/graphStore.ts:357-363 | undo restores the latest past snapshot and moves the current one to the future; the active graph is not part of a snapshot |
| GraphStore.Store.Redo | src/stores/graphStore.ts:357-363 | redo restores the next future snapshot and moves the current one to the past |
| GraphStore.Store.PauseHistory | src/stores/graphStore.ts:369 | pausing stops recording and keeps both stacks |
| GraphStore.Store.ResumeHistory | src/stores/graphStore.ts:370 | resuming restarts recording and keeps both stacks |
| NodeDeletion.PrunedMembers | src/stores/graphStore.ts:201-211 | a graph keeps the node ids not removed, and keeps every edge id unless one of its nodes was removed and the edge was collected |
| NodeDeletion.RemovalGraphs | src/stores/graphStore.ts:201-214 | the removal loop keeps the set of graphs |
| NodeDeletion.RemovalStep | src/stores/graphStore.ts:202-213 | one turn of the removal loop filters only the removed node's own graph, and only when node and graph still exist |
| NodeDeletion.CascadeAllShrinks | src/stores/graphStore.ts:171-198 | the container cascade only adds pins to remove and only deletes nodes, edges and graphs |
| NodeDeletion.ArrayInnerGraphKey | src/stores/graphStore.ts:174-176 | a container whose `innerGraphId` is the array `["g"]` cascades into graph `g` |
| NodeDeletion.DeleteNodesEffect | src/stores/graphStore.ts:144-220 | after `deleteNodes` the listed nodes, their pins and every edge at those pins are gone, and what survives is unchanged |
| NodeDeletion.DropTracked | src/stores/graphStore.ts:177-196 | dropping one inner graph removes exactly the nodes and edges it lists and collects those nodes' pins |
| NodeDeletion.CascadeAllTracks | src/stores/graphStore.ts:171-198 | after the cascade loop the removed nodes, edges and collected pins are exactly those of the dropped graphs; each dropped graph is the inner graph of a listed node, and each listed container the cascade did not remove has lost its existing inner graph |
| NodeDeletion.DeleteNodesSurvivors | src/stores/graphStore.ts:144-220 | exactly which nodes, pins, edges and graphs survive `deleteNodes`: a node unless listed or listed by a dropped graph, a pin unless its owner is such a node, an edge unless a dropped graph lists it or it touches a listed node's pin, a graph unless it is the inner graph of a listed container |
| NodeDeletion.DeleteAbsentNodes | src/stores/graphStore.ts:173 | deleting ids that name no node changes nothing |
| NodeDeletion.CascadeAllAbsent | src/stores/graphStore.ts:173 | the cascade skips ids that name no node |
| NodeDeletion.DeleteContainerOneLevel | src/stores/graphStore.ts:174-196 | deleting a container removes its inner graph, the inner graph's nodes and listed edges, and those nodes' pins, one level deep only |
| NodeDeletion.CascadeAllInv | src/stores/graphStore.ts:171-198 | the cascade keeps the bookkeeping that lets the final removal leave a consistent store |
| NodeDeletion.DeleteNodesConsistent | src/stores/graphStore.ts:144-220 | `deleteNodes` keeps the store consistent for any list of ids |
| History.Record | src/stores/graphStore.ts:363 | a recorded change appends the snapshot before it to the past, drops the oldest entry once 100 are kept, and clears the future |
| History.Log | src/stores/graphStore.ts:66 | while the history is paused nothing is recorded; while tracking the previous snapshot becomes the latest past entry and the future is cleared |
| History.UndoRedoKeepBound | src/stores/graphStore.ts:363 | undo and redo keep the past within the limit of 100 |
| History.UndoAfterRecord | src/stores/graphStore.ts:66 | undo right after a recorded change restores the state before it and offers the undone state for redo |
| History.RedoAfterUndo | src/stores/graphStore.ts:66 | redo right after undo gives back the state and the history as they were |
| History.UndoAfterRedo | src/stores/graphStore.ts:66 | undo right after redo gives back the state and the history as they were |
| History.Temporal.constructor | src/stores/graphStore.ts:66 | the history starts empty and recording |
| History.Temporal.Track | src/stores/graphStore.ts:66 | each `set` logs the snapshot before it as `Log` says |
| History.Temporal.Pause | src/stores/graphStore.ts:369 | pausing stops recording and keeps both stacks |
| History.Temporal.Resume | src/stores/graphStore.ts:370 | resuming restarts recording and keeps both stacks |
| History.Temporal.Clear | src/stores/graphStore.ts:66 | clearing empties both stacks |
| History.Temporal.Undo | src/stores/graphStore.ts:66 | undo moves one snapshot from the past to the future and returns it; with an empty past it changes nothing |
| History.Temporal.Redo | src/stores/graphStore.ts:66 | redo moves one snapshot from the future to the past and returns it; with an empty future it changes nothing |
| ProjectStore.Store.constructor | src/stores/projectStore.ts:112-118 | the store starts with empty strings, schema version 1, no characters and an empty hierarchy |
| ProjectStore.Store.NewId | src/stores/projectStore.ts:123 | `generateId` returns an id never issued before and not a character key, and changes nothing else |
| ProjectStore.Store.CreateProject | src/stores/projectStore.ts:120-131 | `createProject` resets the project under a fresh id, named `Untitled Project` by default, both timestamps `now` |
| ProjectStore.Store.UpdateProjectName | src/stores/projectStore.ts:133-135 | renaming sets the name and the update time only |
| ProjectStore.Store.AddCharacter | src/stores/projectStore.ts:137-144 | `addCharacter` adds one character under a fresh id and sets the update time only |
| ProjectStore.Store.RemoveCharacter | src/stores/projectStore.ts:146-151 | `removeCharacter` deletes exactly that key, present or not, and sets the update time |
| ProjectStore.Store.UpdateCharacter | src/stores/projectStore.ts:153-161 | `updateCharacter` replaces the name when given and keeps it otherwise |
| ProjectStore.Store.SetHierarchy | src/stores/projectStore.ts:163-165 | `setHierarchy` replaces the root list and sets the update time |
| ProjectStore.Store.AddTreeNode | src/stores/projectStore.ts:167-185 | `addTreeNode` inserts a new childless node with a fresh id at the end of the root or of the named parent's children |
| ProjectStore.Store.RemoveTreeNode | src/stores/projectStore.ts:187-192 | `removeTreeNode` keeps what `findAndRemoveNode` leaves |
| ProjectStore.Store.MoveTreeNode | src/stores/projectStore.ts:194-207 | `moveTreeNode` changes nothing when the move is refused and otherwise stores the moved tree and the update time |
| ProjectStore.Store.RenameTreeNode | src/stores/projectStore.ts:209-217 | `renameTreeNode` renames every node with that id and nothing else |
| ProjectStore.Store.Hydrate | src/stores/projectStore.ts:219-221 | `hydrate` replaces the whole project record |
| Tree.TopIds | src/stores/projectStore.ts:45 | the ids of a node list, one per node, in order |
| Tree.ContainsIffCount | src/stores/projectStore.ts:90-96 | `containsNode` finds an id exactly when it occurs at least once at some depth |
| Tree.Find | src/stores/projectStore.ts:90-96 | a node is found exactly when `containsNode` holds, and the found node has that id and occurs in the tree |
| Tree.FindAndRemove | src/stores/projectStore.ts:38-56 | `findAndRemoveNode` reports a removed node exactly when the id occurs, removes every node with the id at every depth together with its subtree, keeps every node outside those subtrees and the order of the rest, and leaves a tree without the id unchanged |
| Tree.RemoveTakesSubtree | src/stores/projectStore.ts:45-51 | a node below the removed one goes with it |
| Tree.NotOutside | src/stores/projectStore.ts:45-51 | a node that occurs once, below the removed one, is not kept |
| Tree.RemovedIsFound | src/stores/projectStore.ts:46-50 | when the id occurs once, the reported node is the one `containsNode` would find |
| Tree.IsDescendantSound | src/stores/projectStore.ts:80-88 | `isDescendant(a, t)` holds only when `t` is below a node with id `a` |
| Tree.IsDescendantComplete | src/stores/projectStore.ts:80-88 | when `a` occurs at most once, every `t` below it is reported |
| Tree.NoCountNotBelow | src/stores/projectStore.ts:80-88 | nothing is below an id that does not occur |
| Tree.NotOwnDescendant | src/stores/projectStore.ts:80-88 | a node that occurs once is not its own descendant |
| Tree.NotOutsideTwice | src/stores/projectStore.ts:80-88 | a node can be below itself only when its id occurs twice |
| Tree.UpdateTreeNode | src/stores/projectStore.ts:98-107 | `updateTreeNode` keeps the list length, applies the updater to each node with the id and keeps every other node's id and name |
| Tree.UpdateAbsent | src/stores/projectStore.ts:98-107 | updating an id that does not occur changes nothing |
| Tree.UpdateFind | src/stores/projectStore.ts:98-107 | after an id-preserving update the node found under the id is the updated node |
| Tree.RenameKeepsShape | src/stores/projectStore.ts:209-217 | renaming keeps every id, kind, graph reference and child list shape |
| Tree.RenameNames | src/stores/projectStore.ts:209-217 | after renaming, the same ids are found and only the renamed id has the new name |
| Tree.AddChildEffect | src/stores/projectStore.ts:176-179 | adding under an existing parent appends the new node to that parent's children |
| Tree.AddChildContains | src/stores/projectStore.ts:176-179 | after adding under a parent, the tree holds the new id exactly when the parent exists |
| Tree.AppendContains | src/stores/projectStore.ts:174 | adding at root level adds exactly the new id |
| Tree.SpliceIndex | src/stores/projectStore.ts:66 | `splice` clamps an index to the list: negative counts from the end, too large means the end |
| Tree.Splice | src/stores/projectStore.ts:66 | `splice(index, 0, x)` puts `x` at the clamped index and keeps the rest in order around it |
| Tree.SplicePastEnd | src/stores/projectStore.ts:66 | an index past the end appends |
| Tree.InsertIsUpdate | src/stores/projectStore.ts:58-78 | inserting under a parent is updating that parent with the spliced child list |
| Tree.InsertUnderParent | src/stores/projectStore.ts:70-75 | inserting under an existing parent splices the node into its children |
| Tree.InsertUnknownParent | src/stores/projectStore.ts:58-78 | inserting under a parent that does not exist leaves the tree unchanged |
| Tree.MoveTree | src/stores/projectStore.ts:194-207 | moving an id that does not occur is refused |
| Tree.MoveIntoOwnSubtreeRefused | src/stores/projectStore.ts:196-199 | a move under one of the node's own descendants is refused |
| Tree.MoveToTop | src/stores/projectStore.ts:201-204 | a move to root level splices the removed node into the remaining root list |
| Tree.MoveUnderParent | src/stores/projectStore.ts:201-204 | a move under a parent outside the node's subtree splices it into that parent's children |
| Tree.MoveToMissingParentDrops | src/stores/projectStore.ts:201-204 | a move under a parent that does not exist drops the node and its subtree |
| Tree.MoveUnderItselfDrops | src/stores/projectStore.ts:196-204 | a move under the node itself passes the guard and drops the node and its subtree |
| Tree.OutsideContains | src/stores/projectStore.ts:45-51 | a node outside the removed subtrees is in the tree |
| Tree.AddUnderUnknownParent | src/stores/projectStore.ts:176-179 | adding under a parent that does not exist leaves the tree unchanged |
| Validator.Repeat | src/services/validator.ts:39-47 | one warning per blank-labelled edge, all equal |
| Validator.CollectOutputPins | src/services/validator.ts:20-21 | the pin scan collects exactly the ids of the node's `out` pins |
| Validator.PickStep | src/services/validator.ts:24-26 | looking at one more edge adds it to the outgoing edges exactly when its source is one of the node's output pins |
| Validator.CountOutgoing | src/services/validator.ts:24-26 | the edge scan counts exactly the outgoing edges and, of those, the ones with a blank label |
| Validator.CheckNode | src/services/validator.ts:17-66 | the four node rules give the specified warnings in rule order |
| Validator.CheckNodes | src/services/validator.ts:16-67 | the node loop concatenates the warnings of the listed nodes in list order |
| Validator.CheckEdges | src/services/validator.ts:70-88 | the edge loop concatenates the warnings of the listed edges in list order |
| Validator.ValidateGraph | src/services/validator.ts:9-91 | `validateGraph` returns nothing for a missing graph, and otherwise the node warnings followed by the edge warnings |
| Validator.RuleCountConcat | src/services/validator.ts:14 | counting warnings of a rule adds up over concatenation |
| Validator.RuleCountRepeat | src/services/validator.ts:39-47 | repeated warnings count as many times for their own rule and never for another |
| Validator.NodeRuleCounts | src/services/validator.ts:16-67 | a listed node that does not exist gives no warning; an existing one gives a `choice-min-edges` warning exactly for a choice with fewer than two outgoing edges, one `choice-edge-label` per blank-labelled outgoing edge of a choice, an `end-no-output` warning exactly for an end node with outgoing edges, and a `jump-needs-target` warning exactly for a jump without a target |
| Validator.RuleWarningCounts | src/services/validator.ts:16-67 | given a node's kind, its outgoing and unlabeled edge counts and whether a jump lacks a target, the four rules give one `choice-min-edges` warning exactly for a choice with fewer than two edges, one `choice-edge-label` per unlabeled edge of a choice, one `end-no-output` exactly for an end node with edges, one `jump-needs-target` exactly for a jump without target, and no `broken-edge` |
| Validator.EdgeRuleCounts | src/services/validator.ts:70-88 | a listed edge gives one `broken-edge` warning per missing pin, with an empty node id |
| Validator.BrokenEdgesLast | src/services/validator.ts:16-88 | all node warnings come first and all `broken-edge` warnings last |
| Validator.NodePartRules | src/services/validator.ts:16-67 | the node loop never reports `broken-edge` |
| Validator.NodeRules | src/services/validator.ts:17-66 | one node never gives a `broken-edge` warning |
| Validator.EdgePartRules | src/services/validator.ts:70-88 | the edge loop reports only `broken-edge`, with an empty node id |
| Validator.NoWarningsIff | src/services/validator.ts:9-91 | a graph validates clean exactly when it is missing, or every listed node breaks no node rule and every listed edge has both pins |
| Validator.NodesQuiet | src/services/validator.ts:16-67 | the node loop is silent exactly when every listed node is clean |
| Validator.NodeQuiet | src/services/validator.ts:17-66 | a node gives no warning exactly when it breaks none of the four rules |
| Validator.EdgesQuiet | src/services/validator.ts:70-88 | the edge loop is silent exactly when every listed edge has both pins |
| Serializer.ValuesIn | src/services/serializer.ts:32 | `Object.values` in a given enumeration order gives one value per key, in that order |
| Serializer.Filter | src/services/serializer.ts:38-40 | `filter` keeps exactly the elements that pass, in order |
| Serializer.Present | src/services/serializer.ts:34-35 | `.filter(Boolean)` after the lookup keeps exactly the listed ids that have a record |
| Serializer.ListedNodes | src/services/serializer.ts:33-35 | a graph's node list maps to the records of its ids that exist, in list order |
| Serializer.ListedEdges | src/services/serializer.ts:55-57 | a graph's edge list maps to the records of its ids that exist, in list order |
| Serializer.ExportGraph | src/services/serializer.ts:32-71 | an exported graph keeps the graph's id and name |
| Serializer.ExportDocument | src/services/serializer.ts:75-84 | the export document copies the project's version, id, name, timestamps and hierarchy |
| Serializer.PinJson | src/services/serializer.ts:14-24 | a serialized pin is an object without repeated keys |
| Serializer.EdgeJson | src/services/serializer.ts:59-68 | a serialized edge is an object without repeated keys |
| Serializer.PutDefinedUnique | src/services/serializer.ts:20-22 | writing an optional field keeps keys distinct |
| Serializer.PutDefinedLookup | src/services/serializer.ts:20-22 | an optional field is written exactly when it is defined |
| Serializer.PinsJson | src/services/serializer.ts:39-40 | a pin list becomes an array with one item per pin |
| Serializer.TreeNodesJson | src/services/serializer.ts:82 | the hierarchy becomes an array with one item per root node |
| Serializer.DocJson | src/services/serializer.ts:75-84 | the export object has exactly the eight keys, in the written order |
| Serializer.ExportGraphSorted | src/services/serializer.ts:37-68 | nodes, edges and each node's input and output pins are sorted by id |
| Serializer.ExportGraphsSorted | src/services/serializer.ts:32-71 | the graphs are sorted by id and each is the export of a stored graph |
| Serializer.ExportSorted | src/services/serializer.ts:26-87 | characters and graphs are sorted by id and each exported graph comes from a stored graph |
| Serializer.NodePinsExact | src/services/serializer.ts:38-40 | a node's input (output) pins are exactly the stored pins it owns with that direction |
| Serializer.GraphNodesExact | src/services/serializer.ts:33-53 | every listed, existing node of the graph is exported, and every exported node is one of them |
| Serializer.GraphEdgesExact | src/services/serializer.ts:55-68 | the exported edges are exactly the listed edges that exist |
| Serializer.FilterKeysDistinct | src/services/serializer.ts:38-40 | filtering keeps ids distinct |
| Serializer.ValuesKeysDistinct | src/services/serializer.ts:32 | the values of a map keyed by id have distinct ids |
| Serializer.ValuesElements | src/services/serializer.ts:32 | `Object.values` holds exactly the stored records |
| Serializer.SortedValuesIndependent | src/services/serializer.ts:38-40 | the sorted, filtered pins do not depend on the enumeration order of the pin map |
| Serializer.SortedAllValuesIndependent | src/services/serializer.ts:73 | the sorted characters do not depend on the enumeration order of the map |
| Serializer.ExportNodeIndependent | src/services/serializer.ts:37-53 | an exported node does not depend on the pin map's enumeration order |
| Serializer.ExportGraphIndependent | src/services/serializer.ts:32-71 | an exported graph does not depend on the pin map's enumeration order |
| Serializer.ExportGraphsIndependent | src/services/serializer.ts:32-71 | the exported graphs do not depend on the enumeration order of the graph and pin maps |
| Serializer.ExportDeterministic | src/services/serializer.ts:26-87 | the export document does not depend on any map's enumeration order |
| Serializer.ExportTextDeterministic | src/services/serializer.ts:86 | the exported text does not depend on any map's enumeration order |
| Serializer.PinJsonFields | src/services/serializer.ts:14-24 | a serialized pin carries its id, owner and direction, and each optional field exactly when it is defined |
| Serializer.EdgeJsonFields | src/services/serializer.ts:59-68 | a serialized edge carries its id and pins, and the label and colour exactly when defined |
| Importer.IndexSnoc | src/services/importer.ts:27 | storing one more record by id overwrites that id's entry |
| Importer.IndexConcat | src/services/importer.ts:19-69 | storing two lists one after the other is storing their concatenation |
| Importer.IndexKeys | src/services/importer.ts:27 | after storing a list by id, an id has an entry exactly when it had one before or some listed record has it |
| Importer.IndexLastWins | src/services/importer.ts:36 | a record whose id no later record repeats is the one stored under that id |
| Importer.IndexUntouched | src/services/importer.ts:59 | an id no listed record has keeps its entry, or its absence |
| Importer.IndexInto | src/services/importer.ts:81-83 | the character loop stores exactly the index of the list by id, the last record with an id winning |
| Importer.NodeRecord | src/services/importer.ts:27-33 | a stored node keeps the document node's id, type and position and takes the graph's id |
| Importer.NodeIds | src/services/importer.ts:26 | a graph's node ids are the document nodes' ids, in order |
| Importer.EdgeIds | src/services/importer.ts:58 | a graph's edge ids are the document edges' ids, in order |
| Importer.GraphRecords | src/services/importer.ts:68 | one graph record per document graph, in order |
| Importer.GraphNodes | src/services/importer.ts:25-33 | one node record per document node of a graph, in order |
| Importer.StoreEdges | src/services/importer.ts:57-66 | the edge loop stores the graph's edges by id and collects their ids in order |
| Importer.StoreNodePins | src/services/importer.ts:35-54 | the pin loops store the node's input then output pins by id |
| Importer.NodesPinsSnoc | src/services/importer.ts:35-54 | the pins of one more node come after those of the earlier nodes |
| Importer.StoreNodesStep | src/services/importer.ts:25-55 | one more node adds its record and then its pins |
| Importer.StoreNodes | src/services/importer.ts:25-55 | the node loop stores the graph's nodes and their pins by id and collects the node ids in order |
| Importer.FirstGraphIdStep | src/services/importer.ts:20 | the first graph id is set once, by the first graph with a non-empty id |
| Importer.GraphRecordsStep | src/services/importer.ts:68 | one more graph stores its record under its id |
| Importer.AllNodesStep | src/services/importer.ts:25-33 | one more graph stores its nodes after the earlier graphs' nodes |
| Importer.AllPinsStep | src/services/importer.ts:35-54 | one more graph stores its pins after the earlier graphs' pins |
| Importer.AllEdgesStep | src/services/importer.ts:57-66 | one more graph stores its edges after the earlier graphs' edges |
| Importer.FlattenStep | src/services/importer.ts:19-69 | one more graph advances the first id and each of the four maps as the loop body does |
| Importer.FlattenGraphs | src/services/importer.ts:13-69 | the graph loop yields exactly the first graph id and the flattened graph state |
| Importer.IndexDistinct | src/services/importer.ts:27 | when ids are distinct, every listed record is stored under its id |
| Importer.NodeRecordData | src/services/importer.ts:31 | a stored node's data reads the document data's value for a present key, and the node type under `type` otherwise |
| Importer.FlattenGraphKeys | src/services/importer.ts:68 | the graph map has an entry exactly for the ids of document graphs |
| Importer.FlattenGraphRecord | src/services/importer.ts:68 | a graph's stored record keeps its id and name and lists its document node and edge ids in order |
| Importer.AllNodesHas | src/services/importer.ts:25-33 | every document node becomes a node record |
| Importer.NodesPinsHas | src/services/importer.ts:35-54 | every input and output pin of a node is collected |
| Importer.AllPinsHas | src/services/importer.ts:35-54 | every pin of every node of every graph is collected |
| Importer.AllEdgesHas | src/services/importer.ts:57-66 | every edge of every graph is collected |
| Importer.FlattenNode | src/services/importer.ts:27-33 | with distinct node ids, every document node is stored under its id with its graph's id |
| Importer.FlattenPin | src/services/importer.ts:36-53 | with distinct pin ids, every document pin is stored under its id unchanged |
| Importer.FlattenEdge | src/services/importer.ts:59-65 | with distinct edge ids, every document edge is stored under its id unchanged |
| Importer.FirstGraphIdEmpty | src/services/importer.ts:17-20 | the active graph id stays empty exactly when every graph id is empty |
| Importer.FirstGraphIdFirst | src/services/importer.ts:20 | the active graph id is the first non-empty graph id |
| Importer.IndexValue | src/services/importer.ts:27 | an entry of a map built by storing records under their ids is one of those records, stored under its own id |
| Importer.IndexDetermined | src/services/importer.ts:27 | when an id names one record only, that record is the one stored under it |
| Importer.AllNodesMember | src/services/importer.ts:25-33 | every stored node record comes from a node of some document graph, with that graph's id |
| Importer.AllPinsMember | src/services/importer.ts:35-54 | every stored pin is an input or output pin of some document node |
| Importer.AllEdgesMember | src/services/importer.ts:57-66 | every stored edge is an edge of some document graph |
| Importer.ProjectCharacters | src/services/importer.ts:80-83 | with distinct ids, every character is stored under its id |
| Importer.ImportRejectsNewer | src/services/importer.ts:9 | a file with a newer schema version fails in the migration step as unsupported |
| Importer.ImportRejectsMalformed | src/services/importer.ts:10 | a file that passes the migration gate but not the schema is rejected as invalid |
| Importer.Validate | src/services/importer.ts:8-10 | migrate then validate, failing with the first error |
| Importer.ImportProject | src/services/importer.ts:7-94 | a failed import leaves both stores untouched; a successful one puts the flattened state with the first graph active in the graph store, recorded in the undo history like any other change, and the document's project record in the project store |
| Importer.HydrateStores | src/services/importer.ts:12-94 | a valid document puts the flattened state, with the first graph active, in the graph store as one recorded change, and its project record in the project store |
| Migrations.Copy | src/services/migrations.ts:7 | spreading an object copies its fields in order; an array gives its items under their decimal indices; `null`, booleans and numbers give nothing; a string gives its characters under their indices |
| Migrations.VersionOf | src/services/migrations.ts:8 | a missing or `null` version reads as 1, a number as itself, and a string, array or object as NaN |
| Migrations.Upgrade | src/services/migrations.ts:6-21 | the gate and loop over any migration list give the specified result or error |
| Migrations.MigrateToLatest | src/services/migrations.ts:6-21 | `migrateToLatest` with today's empty migration list |
| Migrations.RunChains | src/services/migrations.ts:16-18 | from a supported version the migrations from `version - 1` on apply in order |
| Migrations.CurrentVersionIsCopy | src/services/migrations.ts:7-20 | a document at the current version comes back as a copy equal to itself |
| Migrations.MissingVersionIsCurrent | src/services/migrations.ts:8 | a missing or `null` version passes as version 1 |
| Migrations.NewerVersionRejected | src/services/migrations.ts:10-14 | a newer version is rejected with a message naming it and the current version |
| Migrations.OlderVersionFails | src/services/migrations.ts:16-17 | a version below 1 calls `migrations[-1]`, which is not a function |
| Migrations.NaNVersionPassesThrough | src/services/migrations.ts:10-20 | a version that is not a number passes both the gate and the loop unchanged |
| RoundTrip.DecodeCanonPin | src/models/schemas.ts:8-15 | the canonical record of a pin decodes to that pin |
| RoundTrip.DecodeCanonEdge | src/models/schemas.ts:17-23 | the canonical record of an edge decodes to that edge |
| RoundTrip.DecodeCanonNode | src/models/schemas.ts:25-43 | the canonical record of a node decodes to the node with its data in canonical key order |
| RoundTrip.DecodeCanonGraph | src/models/schemas.ts:45-50 | the canonical record of a named graph decodes to the graph, node data in canonical order |
| RoundTrip.DecodeCanonCharacter | src/models/schemas.ts:52-55 | the canonical record of a named character decodes to that character |
| RoundTrip.DecodeCanonTree | src/models/schemas.ts:57-71 | the canonical record of a tree node named at every depth decodes to that tree node |
| RoundTrip.DecodeCanonTrees | src/models/schemas.ts:68 | a list of such tree nodes decodes to itself |
| RoundTrip.DecodeCanonDoc | src/models/schemas.ts:73-82 | the canonical export document with non-empty names passes the export schema and decodes to itself, node data in canonical order |
| RoundTrip.ExportDocDecodes | src/services/importer.ts:8-10 | at the current version, such a document also passes migration unchanged |
| RoundTrip.ExportNamed | src/services/serializer.ts:26-87 | when the project, its characters, its graphs and its tree are named, so is everything the export lists |
| RoundTrip.ExportImports | src/services/importer.ts:7-94 | the canonical export of such stores imports, loading the flattened exported graphs, their first graph active, and the exported project |
| RoundTrip.ExportShaped | src/services/serializer.ts:26-87 | an export of stores whose records sit under their ids is sorted by id at every level, the pins listed under a node are its own of that direction, and within it an id names one node, one pin and one edge |
| RoundTrip.CanonDocShaped | src/lib/stableStringify.ts:4-13 | canonicalising node data keeps that shape |
| RoundTrip.ReexportNodes | src/services/serializer.ts:33-53 | exporting a graph of the imported stores gives back its document nodes, each with its data as the store holds it |
| RoundTrip.ReexportEdges | src/services/serializer.ts:55-68 | exporting a graph of the imported stores gives back its document edges |
| RoundTrip.ReexportDoc | src/services/importer.ts:12-94 | hydrating the stores from a document in that shape and exporting again gives the document back, each node's data as the importer stores it |
| RoundTrip.DataSettles | src/services/importer.ts:31 | node data that has a `type` and no repeated keys prints the same after the importer adds `type` to its canonical form |
| RoundTrip.DocSettles | src/services/importer.ts:31 | so the re-exported document differs from the export only in node data that prints the same |
| RoundTrip.SamePrintDoc | src/lib/stableStringify.ts:1-16 | two documents that differ only in node data that prints the same have equal canonical forms |
| RoundTrip.ExportImportExport | tests/unit/serializer.test.ts:21-71 | export, import, export: when the names are non-empty, the version is current, records sit under their ids and node data has a `type`, the second export prints exactly the text of the first |
| RoundTrip.EmptyNameRejected | src/models/schemas.ts:76 | a document whose `name` is empty fails to import at any version, and as invalid at the current one |
| RoundTrip.EmptyNameNotImported | src/stores/projectStore.ts:133-135 | after `updateProjectName("")`, which the store accepts, the project's export no longer imports |
| UIStore.Push | src/stores/uiStore.ts:44-47 | pushing appends the graph on top and keeps the rest |
| UIStore.Pop | src/stores/uiStore.ts:49-56 | popping an empty stack gives nothing and keeps it; otherwise it gives the top and the rest |
| UIStore.PopAfterPush | src/stores/uiStore.ts:44-56 | popping after a push gives back the pushed graph and the earlier stack |
| UIStore.PushAfterPop | src/stores/uiStore.ts:44-56 | pushing back what was popped restores the stack |
| UIStore.Restore | src/stores/uiStore.ts:63-65 | a graph's saved viewport is found exactly when one was saved |
| UIStore.RestoreAfterSave | src/stores/uiStore.ts:58-65 | after saving a viewport for a graph, that graph restores it and every other one restores as before |
| UIStore.Store.constructor | src/stores/uiStore.ts:32-37 | the initial viewport, empty selection, empty stack, properties panel and no saved viewports |
| UIStore.Store.SetViewport | src/stores/uiStore.ts:39 | replaces the viewport and nothing else |
| UIStore.Store.SetSelection | src/stores/uiStore.ts:41-42 | replaces both selection lists and nothing else |
| UIStore.Store.PushNavigation | src/stores/uiStore.ts:44-47 | pushes the graph on the stack and changes nothing else |
| UIStore.Store.PopNavigation | src/stores/uiStore.ts:49-56 | returns the top and removes it, or returns nothing and changes nothing on an empty stack |
| UIStore.Store.SaveGraphViewport | src/stores/uiStore.ts:58-61 | saves the viewport for the graph and changes nothing else |
| UIStore.Store.RestoreGraphViewport | src/stores/uiStore.ts:63-65 | gives a viewport exactly when one is saved for the graph, and then the saved one |
| FlowMappings.DropKeys | src/components/canvas/flowMappings.ts:15-20 | keeps exactly the data fields whose key the mapping does not overwrite |
| FlowMappings.DropKeysLookup | src/components/canvas/flowMappings.ts:16 | a key other than the overwritten ones reads as in the node's data |
| FlowMappings.Owned | src/components/canvas/flowMappings.ts:8-9 | the filter keeps exactly the listed pins of the node with the given direction |
| FlowMappings.ToFlowNodeCopies | src/components/canvas/flowMappings.ts:11-20 | id, type and position are copied, `nodeId` is the node's id and every other data key reads as in the node |
| FlowMappings.ToFlowNodePins | src/components/canvas/flowMappings.ts:8-9 | the input pins are exactly the node's listed `in` pins, the output pins its `out` pins |
| FlowMappings.ToFlowNodePartition | src/components/canvas/flowMappings.ts:8-9 | the two groups are disjoint and together, with repeats, are the node's listed pins |
| FlowMappings.ToFlowEdge | src/components/canvas/flowMappings.ts:24-37 | the pins become the handles, the ends are left empty, the type is `labeled`, and label and colour are copied |
| FlowMappings.ResolveEdgeNodes | src/components/canvas/flowMappings.ts:40-50 | each end is the owner of the edge's pin, or empty when the pin does not exist |
| FlowMappings.ResolveMatchesHandles | src/components/canvas/flowMappings.ts:40-50 | when both pins exist, the resolved ends are the owners of the canvas edge's handles |

## Left out

- JSON text: `JSON.parse` and the parse error are not modelled. Import starts from a parsed `Json` value, and export ends at the rendered string.
- Numbers are integers. Floating point, `NaN` arithmetic on positions, and `roundPosition` (rounding to one decimal place, `Math.round(val * 10) / 10`; the identity on integers) are not modelled. Positions and viewports are integer-valued.
- `localeCompare` is replaced by a total order on character codes. Locale collation rules are outside the model.
- Property order of JavaScript objects with integer-like keys is not modelled. Such keys come first in ascending numeric order, while the model keeps insertion order.
- `Object.values` iteration order is a parameter, an enumeration of the map's keys. The export is proved independent of it.
- Zod internals are outside the model: error messages, issue paths, and coercion beyond what the schemas declare. The decoders keep only the declared fields, as `parse` does.
- Persistence is not modelled: the IndexedDB storage adapter, `persist` middleware and rehydration. Neither is the download or filesystem I/O of export and import.
- The React components, the canvas library and the `.tsx` files are not part of this model (only the pure mapping in `flowMappings.ts` is).
- `generateId` is a fresh-id oracle. A store's new id differs from every id the store has issued or holds; its format is not modelled.
- Clock reads (`new Date().toISOString()`) are a `now` parameter.
- GraphStore.Store.MoveNode: requires that the node exists. The code would write a partial record for a missing id.
- GraphStore.Store.UpdatePin: requires that the pin exists, for the same reason.
- GraphStore.Store.UpdateEdge: requires that the edge exists, for the same reason.
- ProjectStore.Store.UpdateCharacter: requires that the character exists. For a missing id the code stores a partial record without an `id` (only the given `name`, or nothing), which a `Character` value cannot hold.
- GraphOps.CreateEdgeConsistent: takes as a precondition that the target pin exists, since `createEdge` does not check it.
- Migrations.VersionOf: treats a string, array or object `schemaVersion` as `NaN`. JavaScript compares a numeric string such as `"2"` as a number; that coercion is not modelled.
- Id-keyed maps are plain objects in the source, so a key that names an `Object.prototype` member (`"constructor"`, `"toString"`, `"__proto__"`) reads an inherited value. The model's maps have no inherited entries; such a key finds nothing. Where the source then differs:
  - `innerGraphId` `"constructor"`: the deletion cascade finds a function and then throws;
  - `updateNodeData("toString", {a: 1})` (src/stores/graphStore.ts:231-233): the spread writes a new own record `{data: {a: 1}}`, while the model leaves the state unchanged;
  - `validateGraph("constructor")` (src/services/validator.ts:11-16): `graph.nodeIds` is `undefined` and the loop throws a `TypeError`, while the model returns no warnings;
  - `restoreGraphViewport("constructor")` (src/stores/uiStore.ts:63-65): returns a function, while the model returns none;
  - importing a record with id `"__proto__"` (src/services/importer.ts:27, 36, 59, 68): the assignment sets the map's prototype instead of adding an entry.
- `{ ...data }` on a string spreads its UTF-16 code units. The model spreads characters.
- `activePanel` has no action in the UI store. It is kept at its initial value.
- RoundTrip.ExportImportExport: starts the import from the canonical value the export renders, not from its text, since `JSON.parse` is not modelled. It also needs what the stores do not enforce: non-empty names (`updateProjectName("")` is accepted, and its export is then rejected: `RoundTrip.EmptyNameNotImported`), the current schema version, records stored under their own ids, and node data with a `type` key and without repeated keys (as created nodes' data and JavaScript objects have).
- The time-based coalescing of interactive gestures (drags) happens in components through `pauseHistory` and `resumeHistory`. Only pause and resume themselves are modelled.
