# hypercube_three: the combinatorial core, in Dafny

hypercube_three draws a d-dimensional hypercube (d = 0 to 4) as one closed line and rotates it in
4D space. This project models the discrete part of that program and proves what it achieves.

- **Unit points** (`UnitPoints`). A vertex is a value below 2^d. Its bits 1, 2, 4 and 8 give the
  X, Y, Z and W coordinates of a base vector that never changes. `isMainCorner` tells whether an
  even number of those bits is set. `xor` flips bits. Installing a transform resets the position
  to the base vector, and each `rotate` applies the transform once more.
- **Unit lines** (`UnitLines`). An edge joins two points. A missing endpoint is an error. Each
  endpoint is listed under the other in a two-key adjacency map.
- **Eulerian circuit** (`EulerianCircuits`; its properties are in `MergeProperties`,
  `RepairProperties`, `TraversalProperties` and `CircuitTheorems`). The `EulerianCircuit` class
  builds its circuit in three steps:
  1. It merges the edges' maps into one JavaScript `Map` with ordered keys.
  2. It repairs odd degrees by listing two odd vertices under each other.
  3. It runs Hierholzer's stack traversal.

  Each step is a method over the object's state, proved equal to a function. Lemmas about those
  functions show the following:
  - the merged lists are exactly the neighbours over all edges, cleared of duplicates, and symmetric;
  - a successful repair leaves every degree even;
  - the traversal terminates;
  - on loop-free input the circuit is a closed walk from the first key;
  - when every vertex is reachable, the circuit is Eulerian in the repaired lists. Between any
    two distinct vertices it takes as many steps as one is listed under the other. So it visits
    every vertex, and it has one element more than half the number of repaired entries.
- **Hypercube** (`Hypercubes`, `GeometricShapes`, `CubeTheorems`, `CubeThree`). `GeometricShape` creates the
  shape's 2^d points. It keeps the main corners as anchors and joins each anchor to its d one-bit
  neighbours. It then builds the circuit and reads it back as points. The lemmas show:
  - there are 2^(d-1) anchors and d * 2^(d-1) edges;
  - no two edges join the same two vertices, and every one-bit pair is joined;
  - every neighbour lookup succeeds;
  - for d = 1 to 4 the build succeeds and the line is a closed walk through every vertex of
    the cube; d = 0 gives a dot;
  - for d = 1 to 4, every segment of the line is an edge of the cube, and every edge of the cube
    is a segment;
  - for d = 2 and d = 4, the line draws every edge exactly once. For d = 1 it goes 0, 1, 0.
- **Rotation planes** (`RotationMatrices`, `Matrices`, `JsStrings`). The six plane names come from
  the 4-bit values with two bits set; the lemmas show they are XY, XZ, XW, YZ, YW, ZW, in that
  order. Each plane has a symbolic 16-entry template holding cos, sin and -sin. Each plane has an
  "active" flag. The composite transform is the identity multiplied by the active planes, in name
  order. Matrices are kept as symbolic terms, and `Eval` gives their entries for given sine and
  cosine functions.
- **Catalog** (`PredefinedObjects`). This module covers:
  - the offsets of the invariant points, of the 2x2x2 cube grid and of the 2^4 tesseract grid;
  - the catalog entries and their flags;
  - the list with its lookup by name.

  Its bit masks are most significant first (X = 8), as the source writes them.
- **Controller** (`Controllers`). The service:
  - lists the catalog's names;
  - groups the names by type in order;
  - sets drawing flags;
  - lists the plane names;
  - switches a plane, which gives the new composite to every point of every shape of the catalog.
    The code sets the flag to the given value; it does not toggle it.

## Model

| member | source | states |
|---|---|---|
| UnitPoints.FlipChangesCorner | src/app/class/UnitPoint.ts:75-90 | flipping one of the four mask bits with `xor` turns a main corner into a non-main corner and back |
| UnitPoints.BaseVectorInjective | src/app/class/UnitPoint.ts:58-64 | for values below 16, equal base vectors (bit i of the value gives coordinate i, plus the offset) mean equal values |
| UnitPoints.UnitPoint.constructor | src/app/class/UnitPoint.ts:51-70 | the value, scaling factor and offset are stored; the base vector is the value's corner plus the offset; the position is that base vector; the transform is a copy of the identity; no rotation has been applied |
| UnitPoints.UnitPoint.XorWith | src/app/class/UnitPoint.ts:88-90 | the result xor the same mask gives the value back |
| UnitPoints.UnitPoint.SetRotationMatrix | src/app/class/UnitPoint.ts:118-125 | whatever came before, the position is reset to the base vector, the transform becomes the identity times `m`, and the rotation count restarts at 0 |
| UnitPoints.UnitPoint.Rotate | src/app/class/UnitPoint.ts:111-113 | the transform is applied to the current position, not to the base; the transform is unchanged and the count grows by one, so the position stays the transform applied `rotations` times to the base vector |
| UnitLines.Contribution | src/app/class/UnitLine.ts:59-62 | the map has keys {A, B} and lists A under B; for distinct endpoints the keys are [A, B] in that order and B is listed under A; for equal endpoints there is one key |
| UnitLines.ContributionSymmetric | src/app/class/UnitLine.ts:59-62 | for distinct endpoints, x is listed under y exactly when y is listed under x |
| UnitLines.UnitLine.constructor | src/app/class/UnitLine.ts:50-51 | `point_A` and `point_B` are exactly the constructor's arguments |
| UnitLines.UnitLine.Create | src/app/class/UnitLine.ts:43-54 | the constructor fails with `InvalidEdge` exactly when an endpoint is missing; otherwise it gives a fresh line with those endpoints |
| Sequences.IndexOf | src/app/class/EulerianeCircuit.ts:124 | `indexOf` is -1 exactly when the element is absent, and otherwise the position of its first occurrence |
| Sequences.RemoveAt | src/app/class/EulerianeCircuit.ts:126 | `splice(i, 1)` removes exactly the element at i: the multiset loses that element and the others keep their order |
| Sequences.Dedup | src/app/class/EulerianeCircuit.ts:57 | `Array.from(new Set(s))` has no repeats and holds exactly the elements of `s` |
| Sequences.DedupOrder | src/app/class/EulerianeCircuit.ts:57 | `Array.from(new Set(s))` keeps the elements in the order of their first occurrences in `s` |
| Sequences.DedupIntoOrder | src/app/class/EulerianeCircuit.ts:57 | the elements added after those already kept come in first-occurrence order |
| OrderedMaps.OMap.Set | src/app/class/EulerianeCircuit.ts:57-60 | `Map.set` updates the entry; a new key goes to the end of the key order, and an existing key keeps its place |
| OrderedMaps.KeysInEntries | src/app/class/EulerianeCircuit.ts:49 | a key is in the map exactly when it is in the key order |
| EulerianCircuits.MergeEntry | src/app/class/EulerianeCircuit.ts:49-61 | one merge step keeps the map well formed; a known key keeps the key order, and a new key is appended to it |
| EulerianCircuits.MergeKeys | src/app/class/EulerianeCircuit.ts:49-62 | merging an edge's entries only extends the key order, and merging at least one entry leaves a key |
| EulerianCircuits.MergeKeysStep | src/app/class/EulerianeCircuit.ts:49-62 | the `forEach` over an edge's map merges its keys one at a time, in that map's order |
| EulerianCircuits.OddNodes | src/app/class/EulerianeCircuit.ts:72-80 | every vertex on the odd worklist is a key of the map |
| EulerianCircuits.FirstIn | src/app/class/EulerianeCircuit.ts:85 | the partner found is in the vertex's list and in the worklist; None (the source's `undefined`) means no listed vertex is in the worklist |
| EulerianCircuits.Push | src/app/class/EulerianeCircuit.ts:90-91 | `get(key)!.push(v)` keeps the map well formed and its key order unchanged |
| EulerianCircuits.Repair | src/app/class/EulerianeCircuit.ts:83-92 | a successful repair keeps the map well formed with the same key order |
| EulerianCircuits.RepairUnfold | src/app/class/EulerianeCircuit.ts:83-92 | one loop pass: pop the last vertex, find its partner, drop the partner from the worklist and push each onto the other's list; no partner means the repair fails |
| EulerianCircuits.Consume | src/app/class/EulerianeCircuit.ts:115-128 | the push branch keeps the keys, never lengthens a list, and shortens the current vertex's list |
| EulerianCircuits.ConsumeShrinks | src/app/class/EulerianeCircuit.ts:111-128 | the push branch lowers the number of remaining entries, so the traversal terminates (the pop branch lowers the stack height) |
| EulerianCircuits.MergeHasKeys | src/app/class/EulerianeCircuit.ts:106 | the map merged from at least one edge has a first key to start from |
| EulerianCircuits.EulerianCircuit.constructor | src/app/class/EulerianeCircuit.ts:22-30 | the edges are stored; the map and the circuit start empty |
| EulerianCircuits.EulerianCircuit.Create | src/app/class/EulerianeCircuit.ts:22-39 | no edges gives the `EmptyGraph` error ("There must be at least one edge."); a failed repair gives `UnresolvableOddVertex`; otherwise the object's map and circuit are those of `Build` |
| EulerianCircuits.EulerianCircuit.CreateAdjacency | src/app/class/EulerianeCircuit.ts:44-66 | the nested loops leave the map equal to `Merge(edges)` |
| EulerianCircuits.EulerianCircuit.AddNecessaryEdges | src/app/class/EulerianeCircuit.ts:71-93 | the worklist loop succeeds exactly when `Repair` of the odd vertices does, and then leaves its result |
| EulerianCircuits.EulerianCircuit.FindEulerianCircuit | src/app/class/EulerianeCircuit.ts:98-135 | the stack loop (on a value copy of the lists) leaves the circuit equal to `CircuitOf` the repaired map |
| MergeProperties.MergeEntrySpec | src/app/class/EulerianeCircuit.ts:49-61 | merging `[v]` under `key` lists `v` there once, adds `key` if it is new, and changes no other list as a set |
| MergeProperties.AddsTwice | src/app/class/EulerianeCircuit.ts:60-61 | adding b under a and then a under b joins a and b |
| MergeProperties.MergeDistinctEdge | src/app/class/EulerianeCircuit.ts:45-64 | merging an edge with distinct endpoints lists each endpoint under the other |
| MergeProperties.MergeSelfEdge | src/app/class/EulerianeCircuit.ts:45-64 | merging an edge whose endpoints are equal lists that vertex under itself |
| MergeProperties.MergeEdgeSpec | src/app/class/EulerianeCircuit.ts:45-64 | merging any duplicate-free map with an edge joins the edge's two endpoints |
| MergeProperties.NeighboursStep | src/app/class/EulerianeCircuit.ts:45-65 | the endpoints and neighbours over the edges so far grow by the last edge's two ends |
| MergeProperties.MergeDescribes | src/app/class/EulerianeCircuit.ts:44-66 | the merged map's keys are exactly the endpoint values, and each list holds exactly that vertex's neighbours over all edges, without repeats |
| MergeProperties.NeighboursSymmetric | src/app/class/EulerianeCircuit.ts:45-65 | y is a neighbour of x exactly when x is a neighbour of y |
| MergeProperties.NeighboursAreEndpoints | src/app/class/EulerianeCircuit.ts:45-65 | every neighbour is itself an endpoint |
| MergeProperties.ProperNoSelfNeighbour | src/app/class/EulerianeCircuit.ts:45-65 | without self-edges no vertex is its own neighbour |
| MergeProperties.NeighboursMeaning | src/app/class/EulerianeCircuit.ts:45-65 | y is a neighbour of x exactly when some edge joins them, in either order |
| MergeProperties.EndpointsMeaning | src/app/class/EulerianeCircuit.ts:45-65 | v is an endpoint exactly when some edge has it at one end |
| MergeProperties.MergeSymmetric | src/app/class/EulerianeCircuit.ts:44-66 | the merged lists are symmetric as multisets and closed (every listed vertex is a key); without self-edges they are loop-free |
| MergeProperties.MergeExtends | src/app/class/EulerianeCircuit.ts:45-65 | the key order of the map merged from a prefix of the edges is a prefix of the final key order |
| MergeProperties.MergeFirstKey | src/app/class/EulerianeCircuit.ts:106 | the start vertex, the first key, is the first edge's first endpoint |
| RepairProperties.OddPrefixSpec | src/app/class/EulerianeCircuit.ts:76-80 | the worklist has no repeats and holds exactly the keys read so far whose lists have odd length |
| RepairProperties.OddNodesSpec | src/app/class/EulerianeCircuit.ts:72-80 | the worklist holds each odd-degree vertex once, and nothing else |
| RepairProperties.JoinSound | src/app/class/EulerianeCircuit.ts:90-91 | listing two distinct vertices under each other keeps the lists symmetric, closed and loop-free |
| RepairProperties.WorklistStep | src/app/class/EulerianeCircuit.ts:84-87 | popping the last vertex and splicing out its partner removes exactly those two from a duplicate-free worklist |
| RepairProperties.RepairStep | src/app/class/EulerianeCircuit.ts:83-92 | one pass removes exactly two distinct vertices from the worklist and appends one entry to each of their lists, each already listing the other; no other list changes; the lists stay sound and the worklist still lists the odd vertices |
| RepairProperties.StepParity | src/app/class/EulerianeCircuit.ts:90-91 | appending one entry to each of two odd lists makes both even and moves them off the worklist |
| RepairProperties.RepairSpec | src/app/class/EulerianeCircuit.ts:68-93 | a successful repair leaves every degree even, the lists symmetric, closed and loop-free with the same keys; each list is extended at its end by one entry exactly when its vertex was odd |
| RepairProperties.RepairAddsNoNeighbour | src/app/class/EulerianeCircuit.ts:83-92 | every entry of a repaired list was already listed there: the repair only duplicates existing adjacencies |
| RepairProperties.EvenHasNoOdd | src/app/class/EulerianeCircuit.ts:76-80 | when every degree is even the worklist is empty |
| TraversalProperties.ConsumeEffect | src/app/class/EulerianeCircuit.ts:115-128 | the push branch removes the last entry n from the current vertex's list and one copy of the current vertex from n's list, with n a different vertex; nothing else changes |
| TraversalProperties.RemoveEdgeSymmetric | src/app/class/EulerianeCircuit.ts:118-128 | removing one copy of an edge from both of its lists keeps the lists symmetric |
| TraversalProperties.RemoveEdgeOther | src/app/class/EulerianeCircuit.ts:118-128 | away from the consumed pair, removing one copy of an edge changes no count |
| TraversalProperties.RemoveEdgeWithin | src/app/class/EulerianeCircuit.ts:118-128 | removing entries keeps the lists within the repaired lists |
| TraversalProperties.ConsumeBase | src/app/class/EulerianeCircuit.ts:115-128 | the remaining lists stay a symmetric sub-multiset of the repaired lists |
| TraversalProperties.ConsumeTotal | src/app/class/EulerianeCircuit.ts:118-128 | the push branch removes exactly two entries |
| TraversalProperties.PushParity | src/app/class/EulerianeCircuit.ts:118-128 | moving the top from t to n moves the odd end of the remaining lists with it |
| TraversalProperties.PushWalk | src/app/class/EulerianeCircuit.ts:115-128 | the push branch keeps the walk invariant: the stack is a walk, the circuit is a walk read backwards, and only the junction and the top have odd remaining degree |
| TraversalProperties.PopWalk | src/app/class/EulerianeCircuit.ts:129-132 | the pop branch keeps the walk invariant, with the junction moved to the new top |
| TraversalProperties.TraverseWalk | src/app/class/EulerianeCircuit.ts:111-133 | from a state meeting the walk invariant, the finished circuit is a walk read backwards that starts at the start vertex |
| TraversalProperties.PushCover | src/app/class/EulerianeCircuit.ts:115-128 | the push branch keeps the counting invariant: each vertex is on the stack, in the circuit or untouched, and stack plus circuit grow by one per consumed edge |
| TraversalProperties.PopCover | src/app/class/EulerianeCircuit.ts:129-132 | the pop branch keeps the counting invariant |
| TraversalProperties.FinishedClosed | src/app/class/EulerianeCircuit.ts:111-133 | with the stack empty, every neighbour of a circuit vertex is in the circuit |
| TraversalProperties.PathInCircuit | src/app/class/EulerianeCircuit.ts:111-133 | with the stack empty, a path starting in the circuit stays in it |
| TraversalProperties.TraverseCovers | src/app/class/EulerianeCircuit.ts:111-133 | on connected lists the finished circuit has one element more than half the entries and holds every vertex |
| TraversalProperties.StepsAppend | src/app/class/EulerianeCircuit.ts:118-131 | pushing one more vertex onto a walk adds one step between x and y exactly when the new step joins them |
| TraversalProperties.StepsFound | src/app/class/EulerianeCircuit.ts:111-133 | a walk counts a step between x and y exactly when two consecutive elements are x and y, in either order |
| TraversalProperties.ConsumeCount | src/app/class/EulerianeCircuit.ts:118-128 | the push branch takes exactly one entry between the current vertex and the popped neighbour, in each direction, and no other entry |
| TraversalProperties.PushCountAt | src/app/class/EulerianeCircuit.ts:118-119 | for one pair, the consumed entry is matched by the new step at the top of the stack |
| TraversalProperties.PushCount | src/app/class/EulerianeCircuit.ts:115-128 | the push branch keeps the entry count: each entry taken from the lists is one step along the stack, the circuit or the junction step |
| TraversalProperties.PopCountAt | src/app/class/EulerianeCircuit.ts:129-132 | for one pair, popping moves the top step of the stack to the junction step and the old junction step into the circuit |
| TraversalProperties.PopCount | src/app/class/EulerianeCircuit.ts:129-132 | the pop branch keeps the entry count |
| TraversalProperties.FinishedCounts | src/app/class/EulerianeCircuit.ts:111-134 | with the stack empty and every vertex reachable, nothing is left, so the circuit takes every entry |
| TraversalProperties.TraverseCounts | src/app/class/EulerianeCircuit.ts:111-134 | from a state meeting the walk, coverage and count invariants, the finished circuit steps between two distinct vertices exactly as often as one is listed under the other |
| TraversalProperties.TraverseEndsAt | src/app/class/EulerianeCircuit.ts:106-107 | whatever the lists, the circuit is non-empty and ends at the bottom of the stack, the start vertex |
| TraversalProperties.KeysListed | src/app/class/EulerianeCircuit.ts:100 | every key of the copied lists is in the key order |
| TraversalProperties.CircuitEndsAtStart | src/app/class/EulerianeCircuit.ts:106-107 | the circuit of any map ends at its first key |
| TraversalProperties.ForwardWalk | src/app/class/EulerianeCircuit.ts:111-133 | on symmetric lists a walk read backwards is also a walk forwards |
| TraversalProperties.CircuitIsClosedWalk | src/app/class/EulerianeCircuit.ts:98-135 | on symmetric, closed, loop-free lists of even length, the circuit is a closed walk from the first key back to it |
| TraversalProperties.CircuitCoversGraph | src/app/class/EulerianeCircuit.ts:98-135 | when every vertex is reachable from the first key, the circuit has (total entries / 2) + 1 elements and passes through every vertex |
| TraversalProperties.CircuitUsesEachEntryOnce | src/app/class/EulerianeCircuit.ts:98-135 | on symmetric, closed, loop-free, even lists where the first key reaches every vertex, the circuit steps between distinct x and y exactly as many times as y is listed under x: every edge is used exactly once |
| CircuitTheorems.MergeSound | src/app/class/EulerianeCircuit.ts:44-80 | without self-edges the merged lists are symmetric, closed and loop-free, and the worklist lists the odd vertices |
| CircuitTheorems.RepairOfEven | src/app/class/EulerianeCircuit.ts:71-93 | when every degree is even the repair returns the lists unchanged |
| CircuitTheorems.BuildKeepsEvenGraph | src/app/class/EulerianeCircuit.ts:35-39 | with every merged degree even, the build succeeds on the merged lists themselves |
| CircuitTheorems.BuildIsClosedWalk | src/app/class/EulerianeCircuit.ts:35-135 | a successful build on edges without self-loops gives even, sound lists with the merged key order that keep every original adjacency, and a circuit that is a closed walk from the first edge's first endpoint |
| CircuitTheorems.PathWidens | src/app/class/EulerianeCircuit.ts:90-91 | a path stays a path when the lists only gain entries |
| CircuitTheorems.BuildIsEulerian | src/app/class/EulerianeCircuit.ts:22-135 | when the first endpoint reaches every vertex, the circuit of a successful build uses every repaired edge exactly once (steps between distinct x and y as often as y is listed under x), visits every endpoint and has one element more than half the repaired entries |
| Bits.XorBit | src/app/class/UnitPoint.ts:88-90 | bit i of a ^ b is set exactly when it is set in one operand but not the other |
| Bits.XorTwice | src/app/class/UnitPoint.ts:88-90 | applying the same mask twice gives the value back |
| Bits.XorBound | src/app/class/GeometricShape.ts:66 | a ^ b stays below 2^d when both operands do |
| Bits.BitsDetermine | src/app/class/UnitPoint.ts:58-62 | two values below 2^d with the same low d bits are equal |
| Bits.FlipStaysBelow | src/app/class/GeometricShape.ts:66 | flipping one of the low d bits changes the value and keeps it below 2^d |
| Bits.FlipsDiffer | src/app/class/GeometricShape.ts:65-66 | flipping two different bits gives two different values |
| Hypercubes.AnchorsSpec | src/app/class/GeometricShape.ts:57-59 | the anchors are increasing main corners below n |
| Hypercubes.AnchorsStartAtZero | src/app/class/GeometricShape.ts:57-59 | 0 is the first anchor |
| Hypercubes.AnchorPos | src/app/class/GeometricShape.ts:57-59 | every main corner below n is among the anchors |
| Hypercubes.HighBitFlips | src/app/class/UnitPoint.ts:75-83 | below 2^k, adding 2^k flips the corner parity |
| Hypercubes.AnchorsShift | src/app/class/GeometricShape.ts:57-59 | when adding p flips the parity of every value below m, the values from p to p + m hold as many main corners as the values below m hold others |
| Hypercubes.AnchorsCount | src/app/class/GeometricShape.ts:57-59 | for 1 <= d <= 4 exactly 2^(d-1) of the 2^d vertices are anchors |
| Hypercubes.SplitUnique | src/app/class/GeometricShape.ts:63-65 | edge t * d + i belongs to anchor t and bit i |
| Hypercubes.EdgePairsLength | src/app/class/GeometricShape.ts:62-70 | each anchor contributes d edges |
| Hypercubes.EdgePairsAt | src/app/class/GeometricShape.ts:62-70 | edge k joins anchor k / d to that anchor with bit k % d flipped: ordered by anchor, then by bit |
| Hypercubes.EdgeAtIndex | src/app/class/GeometricShape.ts:62-69 | the edge of anchor t for bit i sits at t * d + i and joins the anchor to the anchor xor 2^i |
| Hypercubes.CubeFirstEdge | src/app/class/GeometricShape.ts:62-67 | the first edge joins 0 to 1 |
| Hypercubes.CubeEdgeShape | src/app/class/GeometricShape.ts:62-69 | one edge joins a main corner below 2^d to a non-main corner below 2^d, one of its low bits flipped |
| Hypercubes.CubeEdgesShape | src/app/class/GeometricShape.ts:62-69 | every edge joins a main corner below 2^d to the value with one low bit flipped, which is below 2^d (so the `find` succeeds) and not a main corner |
| Hypercubes.CubeEdgesCount | src/app/class/GeometricShape.ts:62-70 | there are d * 2^(d-1) edges |
| Hypercubes.CubeEdgePairDistinct | src/app/class/GeometricShape.ts:62-70 | two different edges never join the same two values, in either order |
| Hypercubes.CubeEdgesDistinct | src/app/class/GeometricShape.ts:62-70 | no two edges join the same unordered pair |
| Hypercubes.CubeEdgesComplete | src/app/class/GeometricShape.ts:62-70 | every two values below 2^d that differ in one bit are joined by some edge |
| CubeTheorems.CubeProper | src/app/class/GeometricShape.ts:62-70 | no hypercube edge is a self-loop |
| CubeTheorems.CubeNeighbours | src/app/class/GeometricShape.ts:62-70 | y is a neighbour of x exactly when x is below 2^d and y is x with one low bit flipped |
| CubeTheorems.CubeEndpoints | src/app/class/GeometricShape.ts:62-70 | the endpoints of the d-cube's edges are exactly the values below 2^d |
| CubeTheorems.CubeListed | src/app/class/GeometricShape.ts:62-70 | below 2^d, the neighbours of x are exactly its one-bit flips |
| CubeTheorems.CubeLists | src/app/class/EulerianeCircuit.ts:44-66 | the merged lists of the d-cube hold a list for every value below 2^d with exactly its one-bit flips |
| CubeTheorems.FlipListLength | src/app/class/EulerianeCircuit.ts:57 | a duplicate-free list of exactly the one-bit flips has d entries |
| CubeTheorems.CubeDegree | src/app/class/EulerianeCircuit.ts:44-66 | every vertex of the merged d-cube lists has degree d |
| CubeTheorems.ZeroPath | src/app/class/GeometricShape.ts:62-70 | a path from 0 to v through the cube lists, clearing the lowest set bit at each step |
| CubeTheorems.PathStep | src/app/class/GeometricShape.ts:62-70 | extending a path by a one-bit flip of its end gives a path |
| CubeTheorems.CubeConnected | src/app/class/EulerianeCircuit.ts:44-66 | vertex 0 reaches every vertex of the merged d-cube lists |
| CubeTheorems.CubeCircuit | src/app/class/EulerianeCircuit.ts:98-135 | for the d-cube a successful build gives even, sound lists on the values below 2^d, and a closed walk from 0 that uses each repaired edge exactly once, visits every vertex and has (entries / 2) + 1 elements |
| CubeTheorems.CubeRepairedLists | src/app/class/EulerianeCircuit.ts:71-93 | the repaired lists of the d-cube list exactly the one-bit flips: the repair duplicates cube edges and adds no other |
| CubeTheorems.CubeSteps | src/app/class/EulerianeCircuit.ts:98-135 | every step of the d-cube's circuit joins a value and one of its one-bit flips, and every edge of the d-cube is among its steps |
| CubeTheorems.CubeKeysKept | src/app/class/EulerianeCircuit.ts:71-93 | a successful build keeps the keys, the values below 2^d |
| CubeTheorems.CubeEvenDegrees | src/app/class/EulerianeCircuit.ts:76-80 | for d = 2 and d = 4 every merged degree is even |
| CubeTheorems.CubeEvenBuild | src/app/class/EulerianeCircuit.ts:71-93 | for d = 2 and d = 4 the repair adds nothing and the build succeeds on the merged lists |
| CubeTheorems.SingleEdgeBuild | src/app/class/EulerianeCircuit.ts:44-93 | the single edge 0-1 merges to 0: [1], 1: [0], and the repair doubles it to 0: [1, 1], 1: [0, 0] |
| CubeTheorems.CubeOneBuild | src/app/class/EulerianeCircuit.ts:71-93 | the 1-cube's build succeeds |
| CubeTheorems.CubeEvenCircuit | src/app/class/EulerianeCircuit.ts:22-135 | for d = 2 and d = 4 the circuit takes every edge of the d-cube exactly once |
| CubeTheorems.OneCubeCircuit | src/app/class/EulerianeCircuit.ts:22-135 | the 1-cube's circuit is 0, 1, 0: along the edge and back along the copy the repair added |
| CubeTheorems.DoubledEdgeWalk | src/app/class/EulerianeCircuit.ts:111-133 | in the lists 0: [1, 1], 1: [0, 0] the only closed walk from 0 with three elements is 0, 1, 0 |
| CubeThree.ThreeAnchors | src/app/class/GeometricShape.ts:57-59 | the main corners below 8 are 0, 3, 5 and 6, in that order |
| CubeThree.FlipsOf | src/app/class/GeometricShape.ts:62-67 | an anchor of the 3-cube is joined to its flips of bits 1, 2 and 4, in that order |
| CubeThree.ThreeEdges | src/app/class/GeometricShape.ts:57-70 | the 3-cube's twelve edges are 0-1, 0-2, 0-4, 3-2, 3-1, 3-7, 5-4, 5-7, 5-1, 6-7, 6-4, 6-2, in that order |
| CubeThree.MergeStep | src/app/class/EulerianeCircuit.ts:45-64 | merging the edge a-b merges `[b]` under a and then `[a]` under b |
| CubeThree.MergeEntryKnown | src/app/class/EulerianeCircuit.ts:51-57 | a known key whose list lacks v gets v appended, the key order unchanged and no list repeating a neighbour |
| CubeThree.MergeEntryNew | src/app/class/EulerianeCircuit.ts:58-61 | a new key gets the one-element list and goes to the end of the key order |
| CubeThree.MergeThree | src/app/class/EulerianeCircuit.ts:44-66 | on the 3-cube's edges the keys come out as 0, 1, 2, 4, 3, 7, 5, 6, with lists 0: [1, 2, 4], 1: [0, 3, 5], 2: [0, 3, 6], 4: [0, 5, 6], 3: [2, 1, 7], 7: [3, 5, 6], 5: [4, 7, 1], 6: [7, 4, 2] |
| CubeThree.AllOdd | src/app/class/EulerianeCircuit.ts:76-80 | when every list has odd length the worklist is every key, in key order |
| CubeThree.ThreeOdd | src/app/class/EulerianeCircuit.ts:76-80 | for the 3-cube the worklist is 0, 1, 2, 4, 3, 7, 5, 6 |
| CubeThree.RemoveAfter | src/app/class/EulerianeCircuit.ts:87 | `indexOf` finds x just after a prefix that lacks it, and the `splice` leaves the prefix followed by the rest |
| CubeThree.RepairPair | src/app/class/EulerianeCircuit.ts:83-92 | when the popped vertex's list starts with a vertex still in the worklist, that vertex is its partner: both leave the worklist and the loop goes on with one push onto each list |
| CubeThree.RepairThree | src/app/class/EulerianeCircuit.ts:71-93 | the repair of the 3-cube's lists pairs 6-7, 5-4, 3-2 and 1-0 and never meets a vertex without a partner |
| CubeThree.CubeThreeBuild | src/app/class/EulerianeCircuit.ts:22-93 | the 3-cube's build succeeds |
| GeometricShapes.FindIndex | src/app/class/GeometricShape.ts:66 | `find` gives the first point with the value, or none exactly when no point has it |
| GeometricShapes.FindNumbered | src/app/class/GeometricShape.ts:74 | among numbered points, a value is found exactly when it is in range, and it is that point |
| GeometricShapes.MainPoints | src/app/class/GeometricShape.ts:57-59 | every kept point is a main corner |
| GeometricShapes.MainPointsValues | src/app/class/GeometricShape.ts:57-59 | the main points of numbered points have exactly the anchors' values, in order |
| GeometricShapes.Neighbourhood | src/app/class/GeometricShape.ts:65-68 | one anchor gives d pairs |
| GeometricShapes.NeighbourhoodValues | src/app/class/GeometricShape.ts:62-69 | among the 2^d numbered points every flipped neighbour of a vertex below 2^d is found, and the pairs are that vertex's one-bit flips |
| GeometricShapes.EdgeEndsValues | src/app/class/GeometricShape.ts:62-70 | the `flatMap` finds every second point, and the pairs' values are the anchors' flips in order |
| GeometricShapes.CubeEnds | src/app/class/GeometricShape.ts:62-70 | over the 2^d points every edge end is found, and the ends' values are the d-cube's edges |
| GeometricShapes.LinesPairs | src/app/class/GeometricShape.ts:67 | lines built from the pairs have exactly the pairs' endpoint values |
| GeometricShapes.GraphOf | src/app/class/GeometricShape.ts:73-75 | the line has one point per circuit value |
| GeometricShapes.GraphNumbered | src/app/class/GeometricShape.ts:73-75 | among numbered points, entry k of the line is the point whose value is circuit value k |
| GeometricShapes.GeometricShape.CreatePoints | src/app/class/GeometricShape.ts:50-54 | 2^d fresh points numbered 0 to 2^d - 1 in order, each with the given options, at its base vector with the identity transform |
| GeometricShapes.GeometricShape.CreateEdges | src/app/class/GeometricShape.ts:62-70 | one fresh line per pair, in order; a missing second point is the `InvalidEdge` error, returned exactly when some pair lacks one |
| GeometricShapes.GeometricShape.Create | src/app/class/GeometricShape.ts:25-42 | d = 0 gives a dot at point 0; d > 0 gives the line along the circuit; the only failure is the repair's, which cannot happen for d <= 4; every point is fresh, valid and at its base vector |
| GeometricShapes.GeometricShape.CreateLine | src/app/class/GeometricShape.ts:34-38 | for d > 0 over numbered points: the edges are built, the circuit is built from them, and the line reads the circuit back as points |
| GeometricShapes.GeometricShape.SetRotationMatrix | src/app/class/GeometricShape.ts:95-97 | every point is back at its base vector with the identity times `m` as its transform |
| GeometricShapes.GeometricShape.Animate | src/app/class/GeometricShape.ts:100-101 | every point applies its transform exactly once more |
| GeometricShapes.CubeBuildOutcome | src/app/class/GeometricShape.ts:34-36 | building from the d-cube's edges can fail only in the repair, and succeeds for d = 1 to 4 |
| GeometricShapes.ShapeEdges | src/app/class/GeometricShape.ts:35 | the edges of a shape with d > 0 are the d-cube's edges |
| GeometricShapes.ShapeCircuit | src/app/class/GeometricShape.ts:34-38 | for 1 <= d <= 4 the circuit is a closed walk from 0 that uses each repaired edge exactly once, the line's k-th vertex is the point with the k-th circuit value, and every point is on the line |
| GeometricShapes.ShapeSegments | src/app/class/GeometricShape.ts:35-38 | for 1 <= d <= 4 every segment of the line joins two points one bit apart, and every edge of the d-cube is a segment; for d = 2 and d = 4 the repaired lists are the merged lists and every cube edge is drawn exactly once |
| GeometricShapes.WalkSegments | src/app/class/GeometricShape.ts:37 | a walk over cube lists, read back through the points it names, steps along cube edges |
| JsStrings.IndexFromSpec | src/app/class/RotationMatrix.ts:109-110 | `indexOf(c, from)` finds the first occurrence at or after `from`, and is -1 exactly when there is none |
| JsStrings.PaddedBinary | src/app/class/RotationMatrix.ts:107 | padding the binary digits of a value below 2^k to k digits gives its k lowest bits |
| JsStrings.DigitsBits | src/app/class/RotationMatrix.ts:107 | digit j of the k lowest bits is bit k - 1 - j |
| JsStrings.Binary4Bits | src/app/class/RotationMatrix.ts:107 | below 16, the four digits are the bits 8, 4, 2 and 1, in that order |
| Matrices.IdentityEntries | src/app/class/RotationMatrix.ts:121 | `new Matrix4()` has 1 where row equals column and 0 elsewhere |
| Matrices.MulIdentityLeft | src/app/class/UnitPoint.ts:121-122 | the identity times b is b |
| Matrices.MulIdentityRight | src/app/class/RotationMatrix.ts:121-124 | a times the identity is a |
| Matrices.CopyEvaluatesAlike | src/app/class/UnitPoint.ts:121-122 | the copy `new Matrix4().multiply(m)` has the same entries as `m` |
| RotationMatrices.TwoBitValues | src/app/class/RotationMatrix.ts:97-105 | the filter keeps only values with exactly two of the bits 1, 2, 4, 8 set |
| RotationMatrices.TwoBitBelowSpec | src/app/class/RotationMatrix.ts:93-105 | filtering n - 1 down to 0 gives the two-bit values below n, largest first |
| RotationMatrices.TwoBitBelow16 | src/app/class/RotationMatrix.ts:93-105 | the two-bit values below 16, largest first, are 12, 10, 9, 6, 5, 3 |
| RotationMatrices.PlaneNamesOfPairs | src/app/class/RotationMatrix.ts:106-114 | 12, 10, 9, 6, 5, 3 map to XY, XZ, XW, YZ, YW, ZW |
| RotationMatrices.PlaneNamesValue | src/app/class/RotationMatrix.ts:92-115 | `createPlaneName` yields XY, XZ, XW, YZ, YW, ZW, in that order |
| RotationMatrices.PlaneListDistinct | src/app/class/RotationMatrix.ts:3 | there are six plane names and they are pairwise distinct |
| RotationMatrices.Template | src/app/class/RotationMatrix.ts:33-35 | a template has 16 entries |
| RotationMatrices.TemplatePlaces | src/app/class/RotationMatrix.ts:36-53 | for axes fi < si: cos at both axes' diagonal places, sin at (fi, si), -sin at (si, fi), 1 on the other diagonal places and 0 elsewhere, with entry id at row id % 4, column id / 4 |
| RotationMatrices.TemplateAtZero | src/app/class/RotationMatrix.ts:56-68 | where sine is 0 and cosine 1, every template evaluates to the identity |
| RotationMatrices.CompositeAtZero | src/app/class/RotationMatrix.ts:120-127 | where sine is 0 and cosine 1, every composite evaluates to the identity |
| RotationMatrices.CompositeStep | src/app/class/RotationMatrix.ts:122-125 | composing one more plane multiplies its matrix on the right |
| RotationMatrices.CompositeOfOne | src/app/class/RotationMatrix.ts:120-127 | a composite of one plane evaluates to that plane's matrix |
| RotationMatrices.RotationMatrix.constructor | src/app/class/RotationMatrix.ts:17-24 | the plane is stored, its template is built from it, and it starts inactive |
| RotationMatrices.PlaneAxes | src/app/class/RotationMatrix.ts:30-31 | for each of the six names the first axis index is below the second, and both are below 4 |
| RotationMatrices.TemplateEval | src/app/class/RotationMatrix.ts:56-68 | a filled-in template has cos, sin and -sin of the angle at its four places and the identity's entries elsewhere |
| RotationMatrices.PlaneMatrix | src/app/class/RotationMatrix.ts:29-68 | `getMatrix(angle)` of a named plane is the rotation in that plane's two axes: cos on both diagonals, sin at (first, second), -sin at (second, first), the identity elsewhere |
| RotationMatrices.RotationMatrixs.constructor | src/app/class/RotationMatrix.ts:80-90 | the names are the six plane names, each linked to its own fresh, inactive matrix built for that name |
| RotationMatrices.RotationMatrixs.BuildPlanes | src/app/class/RotationMatrix.ts:83-86 | the `reduce` gives each name its own fresh, inactive matrix for that name, and nothing else |
| RotationMatrices.RotationMatrixs.CreatePlaneName | src/app/class/RotationMatrix.ts:92-115 | the names are XY, XZ, XW, YZ, YW, ZW |
| RotationMatrices.RotationMatrixs.SetRotation | src/app/class/RotationMatrix.ts:117-119 | the named plane's flag becomes the value, and no other flag changes |
| RotationMatrices.RotationMatrixs.ActiveAmong | src/app/class/RotationMatrix.ts:122-125 | a plane is selected exactly when it is among the names and active |
| RotationMatrices.RotationMatrixs.ActiveStep | src/app/class/RotationMatrix.ts:122-125 | the selection grows one name at a time, in name order |
| RotationMatrices.RotationMatrixs.GetFullRotationMatrix | src/app/class/RotationMatrix.ts:120-127 | the result is the identity multiplied by each active plane's matrix, in plane-name order |
| RotationMatrices.NoneActive | src/app/class/RotationMatrix.ts:120-127 | with no active plane the composite is the identity itself |
| PredefinedObjects.InvariantValues | src/app/data/PredefinedObjects.ts:127-135 | the filter keeps only values from the input with W clear and exactly two of X, Y, Z set |
| PredefinedObjects.PairOf | src/app/data/PredefinedObjects.ts:140-154 | one value gives two offsets |
| PredefinedObjects.PairShape | src/app/data/PredefinedObjects.ts:142-153 | for two different axes among X, Y, Z, both offsets have w = 0, unit coordinates and x + y + z = 0, and the second is the first negated |
| PredefinedObjects.OffsetsOf | src/app/data/PredefinedObjects.ts:136-155 | the reduce gives two offsets per value |
| PredefinedObjects.InvariantIndices | src/app/data/PredefinedObjects.ts:137-138 | for a kept value, the two '1' digits sit at two different positions among 0, 1, 2 |
| PredefinedObjects.OffsetPairShape | src/app/data/PredefinedObjects.ts:137-154 | both offsets of a kept value are invariant offsets, and the second is the first negated |
| PredefinedObjects.InvariantBelowSpec | src/app/data/PredefinedObjects.ts:124-135 | the filter over 0..n-1 keeps the invariant values, smallest first |
| PredefinedObjects.InvariantBelow16 | src/app/data/PredefinedObjects.ts:124-135 | the kept values below 16 are 6, 10 and 12 |
| PredefinedObjects.InvariantValuesValue | src/app/data/PredefinedObjects.ts:123-135 | `createInvariantPoints` keeps 6, 10 and 12 and creates six offsets |
| PredefinedObjects.OffsetsOfInvariant | src/app/data/PredefinedObjects.ts:136-155 | the offsets of kept values are all invariant offsets |
| PredefinedObjects.OffsetsOfNegated | src/app/data/PredefinedObjects.ts:136-155 | the offsets of kept values come in pairs, the second of each the first negated |
| PredefinedObjects.InvariantOffsetsInvariant | src/app/data/PredefinedObjects.ts:123-157 | six offsets, each with w = 0, coordinates in {-1, 0, 1} and x + y + z = 0 |
| PredefinedObjects.InvariantOffsetsNegated | src/app/data/PredefinedObjects.ts:142-153 | the six offsets are three pairs, each a point and its mirror through the origin |
| PredefinedObjects.MultiCubeOffsets | src/app/data/PredefinedObjects.ts:158-172 | `createMultiCube` gives eight offsets |
| PredefinedObjects.MultiTesseractOffsets | src/app/data/PredefinedObjects.ts:175-189 | `createMultiTesseract` gives sixteen offsets |
| PredefinedObjects.HalfBit | src/app/data/PredefinedObjects.ts:161 | bit j + 1 of `id << 1` is bit j of `id` |
| PredefinedObjects.MultiCubeShape | src/app/data/PredefinedObjects.ts:158-174 | the eight offsets have x, y, z in {-1, 0} and w = 0, and are pairwise distinct |
| PredefinedObjects.MultiTesseractShape | src/app/data/PredefinedObjects.ts:175-191 | the sixteen offsets have every coordinate in {-1, 0} and are pairwise distinct |
| PredefinedObjects.PredefinedObject.constructor | src/app/data/PredefinedObjects.ts:28-42 | the fields are stored, `toDraw` is as given, and `isDraw` starts false |
| PredefinedObjects.FirstNamed | src/app/data/PredefinedObjects.ts:64 | the position of the first entry with the name, and -1 exactly when there is none |
| PredefinedObjects.PredefinedObjectsList.constructor | src/app/data/PredefinedObjects.ts:57 | the list starts empty |
| PredefinedObjects.PredefinedObjectsList.Add | src/app/data/PredefinedObjects.ts:58-60 | `add` appends the entry at the end |
| PredefinedObjects.PredefinedObjectsList.GetPredefinedObject | src/app/data/PredefinedObjects.ts:67-69 | the first entry with the name; none (the source's `undefined`) exactly when no entry has it |
| PredefinedObjects.PredefinedObjectsList.SetDraw | src/app/data/PredefinedObjects.ts:63-65 | it succeeds exactly when the name is listed, and then sets `toDraw` on the first entry with it; no other `toDraw` and no `isDraw` changes; an unknown name is `UnknownName` |
| Controllers.NamesFound | src/app/services/controller.service.ts:26-28 | entry i of the name list is entry i's name, and a name is listed exactly when the lookup by name finds an entry |
| Controllers.FirstOfKind | src/app/services/controller.service.ts:34-37 | the position of the first entry of a type, and -1 exactly when there is none |
| Controllers.GroupStep | src/app/services/controller.service.ts:34-37 | one reduce step keeps the `Map` well formed |
| Controllers.Group | src/app/services/controller.service.ts:29-41 | the grouping is a well-formed `Map` |
| Controllers.GroupSpec | src/app/services/controller.service.ts:29-41 | the keys are the types in order of first occurrence; each type holds its entries' names in list order; a type that is not a key has no entries |
| Controllers.KindsSpec | src/app/services/controller.service.ts:29-41 | a type is a key exactly when some entry has it |
| Controllers.FirstOfKindPrefix | src/app/services/controller.service.ts:34-35 | a type seen before the last entry keeps its first position |
| Controllers.KindsOrder | src/app/services/controller.service.ts:34-37 | the types are listed in the order of their first entries |
| Controllers.NamesOfKindSpec | src/app/services/controller.service.ts:29-41 | a name is listed under a type exactly when an entry of that type has it |
| Controllers.NamesOfKindDistinct | src/app/services/controller.service.ts:29-41 | with distinct catalog names, no name is listed twice under one type |
| Controllers.GroupListsEachNameOnce | src/app/services/controller.service.ts:29-41 | with distinct catalog names, every entry's name is listed under its own type, once there, and under no other type |
| Controllers.OwnKind | src/app/services/controller.service.ts:31-37 | an entry's name is among the names of its own type |
| Controllers.GroupAt | src/app/services/controller.service.ts:29-41 | the grouping at one type holds exactly that type's names |
| Controllers.NotUnderOtherKind | src/app/services/controller.service.ts:29-41 | with distinct names, an entry's name is not among another type's names |
| Controllers.ShapesOf | src/app/services/controller.service.ts:59-65 | an entry holding one shape gives that shape; an entry holding an array gives the array |
| Controllers.ShapesSpec | src/app/services/controller.service.ts:58-66 | a shape is in the catalog exactly when some entry holds it |
| Controllers.ShapesStep | src/app/services/controller.service.ts:58-66 | the catalog's shapes are collected entry by entry, in list order |
| Controllers.ResetShape | src/app/class/GeometricShape.ts:95-97 | resetting one more shape keeps the shapes already done reset, even when they share points |
| Controllers.ShapePointsIn | src/app/services/controller.service.ts:58-66 | the points of one shape are among the points of all the shapes |
| Controllers.SubShapes | src/app/services/controller.service.ts:58-66 | shapes found among other shapes have their points among the others' points |
| Controllers.EntryShapes | src/app/services/controller.service.ts:58-66 | an entry's shapes are numbered, and their points are among the catalog's points |
| Controllers.ResetShapes | src/app/services/controller.service.ts:59-62 | every shape of an entry's array gets the transform |
| Controllers.Broadcast | src/app/services/controller.service.ts:58-66 | every point of every shape of every entry, whether the entry holds one shape or an array, is back at its base vector with the identity times `m` as its transform |
| Controllers.ControllerService.constructor | src/app/services/controller.service.ts:15-16 | the service holds the catalog and a fresh composer whose six planes are all inactive |
| Controllers.ControllerService.GetPredefinedObjectsNames | src/app/services/controller.service.ts:26-28 | one name per catalog entry: entry i of the result is entry i's name |
| Controllers.ControllerService.GetPredefinedObjectsNameTypeMap | src/app/services/controller.service.ts:29-41 | the loop's `Map` is the grouping: types in order of first occurrence, each with its names in list order |
| Controllers.ControllerService.SetDrawPredefinedObject | src/app/services/controller.service.ts:42-45 | it succeeds exactly when the name is listed, and then sets `toDraw` on the named entry; no other entry's `toDraw` and no `isDraw` changes; an unknown name is `UnknownName` |
| Controllers.ControllerService.GetPredefinedObject | src/app/services/controller.service.ts:46-48 | the entry found is in the catalog with that name, and there is none exactly when the name is not listed |
| Controllers.ControllerService.GetRotationPlaneNames | src/app/services/controller.service.ts:50-52 | the six distinct plane names, XY, XZ, XW, YZ, YW, ZW |
| Controllers.ControllerService.SetRotateRotationPlane | src/app/services/controller.service.ts:54-68 | the named plane's flag becomes the value and no other flag changes; the composite is the active planes for angle 0.01 in name order; every point of every shape of the catalog is reset to it |

## Left out

- The stereographic projection (`getVector3Stereographic`, UnitPoint.ts:95-106) is left out: it is floating-point arithmetic with π.
- The sine and cosine values and three.js's `applyMatrix4` are left out. Matrices and positions are symbolic terms; `Eval` takes sine and cosine as parameters.
- Rendering is left out: `createLine`, `createDot`, the geometry rebuild in `animate`, and threeBasic.ts. The shape's drawing is kept only as the list of its vertices, or the dot's point.
- src/app/class/helper/RotationMatrix.ts is not part of this model. It is never called.
- The Angular components and the RxJS `Subject` emissions (controller.service.ts:18-24, 44, 67) are left out. They only notify the UI.
- The catalog's instantiation (PredefinedObjects.ts:75-119) is left out. It is a fixed data list. `ControllerService` takes the catalog as a constructor parameter, so the model holds for any catalog of entries with numbered shapes.
- The mapping of the offsets to `new Point`, `new Cube` and `new Tesseract` (PredefinedObjects.ts:156, 173, 190) is left out. The offset lists themselves are modelled.
- The `basicObjects/*` subclasses are left out. They only fix d = 0 to 4, which is `GeometricShape.Create`'s `dimensions` parameter.
- The "local copy" at EulerianeCircuit.ts:100 is shallow in the source: the traversal drains the stored lists. The model copies the lists by value, so the repaired lists survive. The lemmas speak about the circuit.
- Aliasing between the lines and the merged map is not modelled. A key seen in only one edge stores that `UnitLine`'s own array (EulerianeCircuit.ts:60). The pushes at lines 90-91 and the traversal's `pop` and `splice` then change that line's `adjacencySet` too; for d = 1 both of the edge's lists end empty. In the model `UnitLine.adjacencySet` is an immutable value.
- IsMainCorner counts only the bits 1, 2, 4 and 8, as the source does. Results about anchors and edge counts are therefore stated for d <= 4 only.
- CircuitTheorems.BuildIsClosedWalk, CircuitTheorems.BuildIsEulerian, TraversalProperties.CircuitIsClosedWalk, TraversalProperties.CircuitCoversGraph, TraversalProperties.CircuitUsesEachEntryOnce: they require edges without self-loops. With a self-loop the source's traversal removes only the popped entry, and the parity argument does not apply.
- Controllers.ControllerService.SetRotateRotationPlane: the composite it hands to the shapes is a ghost out-parameter, because the source does not return it.
- Controllers.GroupListsEachNameOnce: it requires distinct catalog names. With a repeated name, the name is listed as often as it occurs.
- `id << 1` (PredefinedObjects.ts:161) is modelled as `id * 2`. This is the same for id < 8.
- The non-null assertions at PredefinedObjects.ts:64 and 68 are modelled as an Option and an `UnknownName` error. The source reads `undefined`, or throws in `setDraw`.
- The `undefined` partner at EulerianeCircuit.ts:85 is modelled as an `UnresolvableOddVertex` error. The source would splice the wrong worklist element at line 87 and throw at line 91.
