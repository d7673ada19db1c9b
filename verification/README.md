# Boids: the flocking kernels and the spatial partitioner, in Dafny

This project models the computational core of a Unity boids simulation.

- **`BComponent<T>`** is the container everything runs on: a backing array
  (`Data`), a logical `Length`, and the array's `Capacity`.
- **`BoidsMath`** holds the flocking kernels. Each is a loop that writes
  `output.Data[i]` for every agent `i`:
  - avoidance: each agent is pushed away from every other agent by
    `(p - q) / sqrt(|p - q|)`;
  - cohesion: a vector towards the group's mean position;
  - alignment: the group's mean;
  - element-wise sum and difference, two scalings, normalisation, and the
    wrap of x and y into the screen.
- **`SpatialPartitioner`** cuts the screen into square cells of side
  `SpaceUnit`. It has four jobs:
  - `UpdateIndex` files each agent's index in the cell its position falls in;
  - `Partition` gathers per-agent data into the grid's layout;
  - `Write` scatters the grid back to the agents;
  - `ResetIndex` and `Resize` empty the cells or copy the cell lengths.

The model has three layers.

- **Imperative layer.** `BComponent` is a class. The kernels and the
  partitioner's operations are methods with the source's loops, written in
  place on arrays. Each method is proved against a specification function.
- **Specification layer.** The specification functions describe the
  results as values:
  - `Avoidance`, `Mean` and `Normalized` for the kernels;
  - `Bucket`, `Filed` and `FileEach` for filing agents;
  - `Flatten`, `Pending` and `Apply` for writing back.
- **Lemmas.** These state what the source relies on:
  - the two avoidance loops skip exactly the agent itself;
  - the cohesion vectors sum to zero;
  - filing into an empty grid files every agent exactly once, in the cell
    its position falls in;
  - `Partition` then `Write` gives the data back unchanged;
  - editing one gathered value reaches exactly the agent it came from.

The scenario modules apply the operations to the inputs of the repository's
test suites and prove the values those tests expect.

Floats are modelled as exact reals. Square roots are a parameter `sqrt`:
every property that needs a root states, as a precondition, the value it
needs `sqrt` to return.

Modules and files:

| module | file | what it holds |
|---|---|---|
| `Buffers` | `bcomponent.dfy` | `BComponent<T>` |
| `Vectors` | `vectors.dfy` | the parts of Unity's `Vector3` and `Mathf` the kernels use |
| `BoidsMath` | `boidsmath.dfy` | the kernels and their specification functions |
| `PartitionSpec` | `partitionspec.dfy` | buckets, row-major reading, pending writes |
| `SpatialPartitioning` | `spatialpartitioner.dfy` | the `SpatialPartitioner` class |
| `RoundTrip` | `roundtrip.dfy` | properties of several partitioner operations together |
| `Scenarios` | `scenarios.dfy` | the partitioner test scenarios |
| `KernelScenarios` | `kernelscenarios.dfy` | the kernel test scenarios |

## Model

| member | source | states |
|---|---|---|
| Buffers.BComponent.constructor | Assets/Scripts/BComponent.cs:6-10 | The buffer shares the caller's array (no copy). Length is as given, capacity is the array's length, and the logical contents are the first `length` slots. |
| Vectors.Normalized | Assets/Scripts/BoidsMath.cs:91 | `v.normalized` is zero when the magnitude is at most `Vector3.kEpsilon`. Otherwise, scaling the result by the magnitude gives `v` back. |
| Vectors.NormalizedZero | Assets/Scripts/BoidsMath.cs:88-94 | Normalising the zero vector gives the zero vector. |
| Vectors.NormalizedIsUnit | Assets/Scripts/BoidsMath.cs:88-94 | A vector longer than epsilon normalises to squared length exactly 1, for any `sqrt` that returns a true root of its squared length. |
| Vectors.Repeat | Assets/Scripts/BoidsMath.cs:99-100 | `Mathf.Repeat(t, length)` lies in `[0, length)` for every `t` when `length > 0`. |
| Vectors.RepeatInRange | Assets/Scripts/BoidsMath.cs:99-100 | A coordinate already inside `[0, length)` is left unchanged by the wrap. |
| Vectors.RepeatIdempotent | Assets/Scripts/BoidsMath.cs:95-103 | Wrapping twice is the same as wrapping once. |
| Vectors.ScaleInverse | Assets/Scripts/BoidsMath.cs:81-87 | Scaling by `1/s` undoes scaling by `s`. |
| BoidsMath.GetAvoidanceVector | Assets/Scripts/BoidsMath.cs:6-22 | For each agent `i`, the output holds the push of every other agent: first the loop below `i`, then the loop above `i`. Slots past the agents are untouched, and the output buffer is returned. |
| BoidsMath.AddRepulsions | Assets/Scripts/BoidsMath.cs:12-19 | One inner loop adds the pushes of agents `lo..hi-1` on agent `i` to `output[i]`, in order. No other slot changes. |
| BoidsMath.SplitLoopsSkipSelf | Assets/Scripts/BoidsMath.cs:10-20 | For every prefix, the two loops split at `i` sum the same terms, in the same order, as one pass that adds nothing for `i` itself. |
| BoidsMath.AvoidanceSkipsSelf | Assets/Scripts/BoidsMath.cs:10-20 | An agent's avoidance vector equals the reference definition: the pushes of all the other agents, and none from itself. |
| BoidsMath.GetCoheranceVector | Assets/Scripts/BoidsMath.cs:24-36 | Each agent gets the mean position minus its own position, computed from the positions as they were before the call, so the output may alias the input. Other slots are untouched. |
| BoidsMath.SumOfDeviationsIs | Assets/Scripts/BoidsMath.cs:27-33 | The deviations `m - p[k]` over the first `n` agents add up to `n·m` minus the sum of those positions. |
| BoidsMath.CohesionBalances | Assets/Scripts/BoidsMath.cs:24-36 | The cohesion vectors of a group add up to the zero vector. |
| BoidsMath.GetAlignmentVector | Assets/Scripts/BoidsMath.cs:38-48 | Every agent gets the mean of all the inputs, and the slots past the agents are untouched. |
| BoidsMath.SumOfConstant | Assets/Scripts/BoidsMath.cs:40-45 | Summing `n` copies of `v` gives `n·v`. |
| BoidsMath.MeanOfConstant | Assets/Scripts/BoidsMath.cs:38-48 | A group whose members all share one vector has that vector as its mean: aligning an aligned group changes nothing. |
| BoidsMath.Sum | Assets/Scripts/BoidsMath.cs:50-60 | The outcome is `Pass` exactly when the two lengths are equal. Either way, each of the first `left.Length` slots holds the sum of the inputs as they were before the call, so the output may alias either input. Other slots are untouched. |
| BoidsMath.Sub | Assets/Scripts/BoidsMath.cs:61-71 | As `Sum`, with the element-wise difference. |
| BoidsMath.SumThenSub | Assets/Scripts/BoidsMath.cs:50-71 | Adding `right` and then subtracting it again gives back `left`, slot by slot. |
| BoidsMath.ScalePerElement | Assets/Scripts/BoidsMath.cs:73-80 | `output[i] = scalar[i] · vector[i]` for each of the scalar buffer's `Length` slots. Other slots are untouched. |
| BoidsMath.ScaleUniform | Assets/Scripts/BoidsMath.cs:81-87 | `output[i] = s · vector[i]` for each agent. Other slots are untouched. |
| BoidsMath.ScaleThenUnscale | Assets/Scripts/BoidsMath.cs:81-87 | Scaling by `s` and then by `1/s` gives every vector back. |
| BoidsMath.Normalize | Assets/Scripts/BoidsMath.cs:88-94 | `output[i]` is the normalisation of the input vector as it was before the call. Other slots are untouched. |
| BoidsMath.WrapBetween | Assets/Scripts/BoidsMath.cs:95-103 | x and y of `output[i]` become the input's x and y wrapped into `[0, maxX)` and `[0, maxY)`. The z of `output[i]` keeps its old value; it is not copied from the input. |
| SpatialPartitioning.Trunc | Assets/Scripts/SpatialPartitioner.cs:55-56 | The `(int)` cast truncates toward zero: the result is the integer next to `x` on the side of zero. |
| SpatialPartitioning.LastIndexCovers | Assets/Scripts/SpatialPartitioner.cs:12-18 | For a positive cell size, the truncated quotient is the last index whose cell starts within the extent, and the cell after it starts beyond the extent. |
| SpatialPartitioning.SpatialPartitioner.MaxRowIndex | Assets/Scripts/SpatialPartitioner.cs:12-14 | The `(int)` cast of `ScreenWidth / SpaceUnit`, truncated toward zero: the result is the integer next to the quotient on the side of zero. |
| SpatialPartitioning.SpatialPartitioner.MaxColIndex | Assets/Scripts/SpatialPartitioner.cs:16-18 | The `(int)` cast of `ScreenHeight / SpaceUnit`, truncated toward zero: the result is the integer next to the quotient on the side of zero. |
| SpatialPartitioning.SpatialPartitioner.GridCoversScreen | Assets/Scripts/SpatialPartitioner.cs:12-18 | Rows `0..MaxRowIndex` cover the screen's width and columns `0..MaxColIndex` its height, with nothing to spare. |
| SpatialPartitioning.NewGrid | Assets/Scripts/SpatialPartitioner.cs:40-47 | A new `rows × cols` grid of empty cells. Each cell has the given capacity and a backing array of its own. |
| SpatialPartitioning.EmptyBuffer | Assets/Scripts/SpatialPartitioner.cs:45 | A new empty buffer with a new backing array of the given capacity. |
| SpatialPartitioning.SpatialPartitioner.constructor | Assets/Scripts/SpatialPartitioner.cs:26-35 | The four properties take the arguments. The index map is a new grid of `(MaxRowIndex+1) × (MaxColIndex+1)` empty cells. |
| SpatialPartitioning.SpatialPartitioner.MallocSpace | Assets/Scripts/SpatialPartitioner.cs:37-49 | A new grid with one empty cell of capacity `SpaceMaxEntity` per cell of the screen, no two cells sharing a backing array. |
| SpatialPartitioning.SpatialPartitioner.UpdateIndex | Assets/Scripts/SpatialPartitioner.cs:51-62 | Every cell gains, at its end, the agents whose position truncates to it, in index order. Every agent is filed exactly once. No slot of a backing array past a cell's new end changes. The grid's invariant is kept. |
| SpatialPartitioning.SpatialPartitioner.FileAll | Assets/Scripts/SpatialPartitioner.cs:54-60 | The loop files the agents one by one, in index order. |
| SpatialPartitioning.SpatialPartitioner.File | Assets/Scripts/SpatialPartitioner.cs:55-59 | Agent `i` is appended to the cell its position falls in, and nothing else changes. |
| SpatialPartitioning.SpatialPartitioner.ResetIndex | Assets/Scripts/SpatialPartitioner.cs:64-73 | Every cell is emptied. The stale array contents stay, and the grid reads as no agents at all. |
| SpatialPartitioning.SpatialPartitioner.Clear | Assets/Scripts/SpatialPartitioner.cs:69 | Exactly one cell is emptied. |
| SpatialPartitioning.SpatialPartitioner.Partition | Assets/Scripts/SpatialPartitioner.cs:75-91 | Each output cell takes its index list's length and, slot by slot, the data its indices name. Its other slots, and the output cells beyond the grid, are untouched. |
| SpatialPartitioning.SpatialPartitioner.PartitionRow | Assets/Scripts/SpatialPartitioner.cs:83-88 | As `Partition`, for the cells of one row. |
| SpatialPartitioning.GatherCell | Assets/Scripts/SpatialPartitioner.cs:84-87 | One cell gathers the data its indices name and takes the index list's length. |
| SpatialPartitioning.SpatialPartitioner.Write | Assets/Scripts/SpatialPartitioner.cs:93-107 | The target ends as if every pending write were performed in row-major order. In each cell, the k-th value goes to the k-th filed index. A later write to the same slot wins. |
| SpatialPartitioning.SpatialPartitioner.WriteRows | Assets/Scripts/SpatialPartitioner.cs:99-106 | The outer loop performs the rows' writes in order. |
| SpatialPartitioning.SpatialPartitioner.WriteRow | Assets/Scripts/SpatialPartitioner.cs:100-105 | The middle loop performs one row's writes, cell by cell. |
| SpatialPartitioning.SpatialPartitioner.WriteCell | Assets/Scripts/SpatialPartitioner.cs:101-104 | One cell's writes are appended to those already performed. |
| SpatialPartitioning.ScatterCell | Assets/Scripts/SpatialPartitioner.cs:101-104 | The k-th value of the cell goes to the slot named by the k-th index, in order. |
| SpatialPartitioning.SpatialPartitioner.PendingEntries | Assets/Scripts/SpatialPartitioner.cs:99-106 | For cells exactly as long as their index lists, the k-th pending write carries the cell's k-th value to the k-th filed agent. |
| SpatialPartitioning.SpatialPartitioner.PendingTargets | Assets/Scripts/SpatialPartitioner.cs:99-106 | Every pending write names a slot of the target. |
| SpatialPartitioning.SpatialPartitioner.Resize | Assets/Scripts/SpatialPartitioner.cs:109-117 | Each cell of the component takes the length of its index-map cell. Cells beyond the grid keep theirs, and the contents are untouched. |
| SpatialPartitioning.SpatialPartitioner.ResizeRow | Assets/Scripts/SpatialPartitioner.cs:113-115 | As `Resize`, for one row. |
| PartitionSpec.BucketMembers | Assets/Scripts/SpatialPartitioner.cs:54-60 | A cell's bucket holds exactly the agents that lie in it: each once, in ascending order. |
| PartitionSpec.BucketAbsent | Assets/Scripts/SpatialPartitioner.cs:54-60 | A cell that no agent lies in gets no agent. |
| PartitionSpec.BucketGrows | Assets/Scripts/SpatialPartitioner.cs:57-59 | An agent still to be filed will find its cell shorter than it ends up. |
| PartitionSpec.FiledStep | Assets/Scripts/SpatialPartitioner.cs:57-59 | Filing one more agent is appending it to its own cell. |
| PartitionSpec.FiledNone | Assets/Scripts/SpatialPartitioner.cs:54-60 | Filing no agents changes nothing. |
| PartitionSpec.FileEachIsFiled | Assets/Scripts/SpatialPartitioner.cs:54-60 | Filing agent after agent equals appending each cell's bucket to it. |
| PartitionSpec.FileEachOnce | Assets/Scripts/SpatialPartitioner.cs:54-60 | Filing `n` agents adds each of `0..n-1` to the grid exactly once. |
| PartitionSpec.FileEachRoom | Assets/Scripts/SpatialPartitioner.cs:57-58 | When each cell has room for its bucket, the next agent's cell always has a free slot. |
| PartitionSpec.AgentsBelowOnce | Assets/Scripts/SpatialPartitioner.cs:54 | Each of the indices `0..n-1` occurs once. |
| PartitionSpec.EmptyCells | Assets/Scripts/SpatialPartitioner.cs:64-73 | A grid whose every cell is empty is the empty grid. |
| PartitionSpec.FiledFromEmpty | Assets/Scripts/SpatialPartitioner.cs:51-62 | Filing into an empty grid leaves each cell holding exactly its bucket. |
| PartitionSpec.FiledFromEmptyUnique | Assets/Scripts/SpatialPartitioner.cs:51-62 | Filing into an empty grid files no agent twice anywhere in the grid. |
| PartitionSpec.BucketsApart | Assets/Scripts/SpatialPartitioner.cs:54-60 | Two different positions in the buckets hold two different agents. |
| PartitionSpec.FlattenGrow | Assets/Scripts/SpatialPartitioner.cs:57-59 | Appending one agent to a cell adds exactly that agent to the grid's row-major reading. |
| PartitionSpec.FlattenEmpty | Assets/Scripts/SpatialPartitioner.cs:64-73 | A grid of empty cells reads as nothing. |
| PartitionSpec.FlattenRowsPosition | Assets/Scripts/SpatialPartitioner.cs:99-106 | Every value of every cell appears in the row-major reading. |
| PartitionSpec.Pending | Assets/Scripts/SpatialPartitioner.cs:99-106 | The pending writes have the grid's shape, one list per cell. |
| PartitionSpec.Apply | Assets/Scripts/SpatialPartitioner.cs:102-103 | Performing writes never changes the target's length. |
| PartitionSpec.ApplyConcat | Assets/Scripts/SpatialPartitioner.cs:99-106 | Performing two batches of writes in turn equals performing them as one batch. |
| PartitionSpec.ApplyAgreeing | Assets/Scripts/SpatialPartitioner.cs:99-106 | Writes that all carry `b`'s value for their slot leave exactly the slots they hit holding `b`'s values, and every other slot as it was. |
| PartitionSpec.ApplyUnchanged | Assets/Scripts/SpatialPartitioner.cs:99-106 | Writing back values that are already there changes nothing. |
| PartitionSpec.ScatterGathered | Assets/Scripts/SpatialPartitioner.cs:75-107 | Scattering back what was gathered, through the same index lists, leaves the data as it was. |
| PartitionSpec.ScatterOneEdit | Assets/Scripts/SpatialPartitioner.cs:75-107 | If one gathered value is replaced and its agent is listed nowhere else, scattering changes that agent's slot and no other. |
| RoundTrip.FileFromEmpty | Assets/Scripts/SpatialPartitioner.cs:51-62 | Indexing into an empty partitioner: each cell holds exactly the agents in it, in index order, no agent is filed twice, and every agent is filed. |
| RoundTrip.Rebuild | Assets/Scripts/SpatialPartitioner.cs:51-73 | `ResetIndex` then `UpdateIndex`: whatever the grid held before, it ends holding each agent once, in the cell its position falls in. |
| RoundTrip.PartitionThenWrite | Assets/Scripts/SpatialPartitioner.cs:75-107 | `Partition` then `Write` leaves the data unchanged. |
| RoundTrip.PartitionEditWrite | Assets/Tests/Tests/SpatialPartitionerTests.cs:162-168 | `Partition`, one gathered value replaced, then `Write`: exactly the agent that value came from changes, and it changes to the new value. |
| RoundTrip.EditThenWrite | Assets/Scripts/SpatialPartitioner.cs:93-107 | The edit-and-write half of the above, on a freshly gathered grid. |
| RoundTrip.EditedPending | Assets/Scripts/SpatialPartitioner.cs:93-107 | A gathered grid with one value edited scatters to the data with that one slot changed. |
| RoundTrip.GatheredFits | Assets/Scripts/SpatialPartitioner.cs:75-107 | A grid just gathered by `Partition` meets what `Write` requires of its cells. |
| Scenarios.DiagonalCells | Assets/Tests/Tests/SpatialPartitionerTests.cs:32-36 | The five diagonal agents fall in cells (0,0), (1,1), (2,2), (2,2) and (3,3) of the unit grid. |
| Scenarios.DiagonalBuckets | Assets/Tests/Tests/SpatialPartitionerTests.cs:44-48 | Cell (2,2) holds agents 2 then 3, and cells (0,0), (1,1) and (3,3) hold agents 0, 1 and 4. |
| Scenarios.ScreenGrid | Assets/Tests/Tests/SpatialPartitionerTests.cs:10-25 | A 19.2 × 10.8 screen in unit cells keeps its four parameters and has 20 × 11 empty cells. |
| Scenarios.FileDiagonal | Assets/Tests/Tests/SpatialPartitionerTests.cs:27-49 | After `UpdateIndex` on the diagonal agents, the cells hold 0, 1, (2, 3) and 4 on the diagonal and nothing elsewhere. |
| Scenarios.DiagonalElsewhere | Assets/Tests/Tests/SpatialPartitionerTests.cs:27-49 | No diagonal agent lies off the first four diagonal cells. |
| Scenarios.GatherDiagonal | Assets/Tests/Tests/SpatialPartitionerTests.cs:79-143 | After `Partition`, the diagonal cells hold the positions the tests expect, and all other cells are empty. |
| Scenarios.GatherFiled | Assets/Tests/Tests/SpatialPartitionerTests.cs:79-143 | The gathering half of the above, once the agents are filed. |
| Scenarios.ReadDiagonal | Assets/Tests/Tests/SpatialPartitionerTests.cs:113-143 | The values read back from each diagonal cell are the positions filed there. |
| Scenarios.WriteBack | Assets/Tests/Tests/SpatialPartitionerTests.cs:145-169 | Filing, gathering, editing the first value of cell (0,0) and writing back sets agent 0 to (0.3, 0.23, 0). The others keep their positions. |
| Scenarios.EditFirst | Assets/Tests/Tests/SpatialPartitionerTests.cs:165-168 | With agent 0 alone in cell (0,0), the edit reaches agent 0 and no other agent. |
| Scenarios.Filing | Assets/Tests/Tests/SpatialPartitionerTests.cs:27-43 | The diagonal agents all lie inside the 20 × 11 grid, and every cell has room for them. |
| Scenarios.Gatherable | Assets/Scripts/SpatialPartitioner.cs:75-91 | Once the cells hold the buckets of `n` agents, every filed index names one of those agents. |
| KernelScenarios.AvoidanceOfPair | Assets/Tests/Tests/CorrectnessTests.cs:18-34 | Agents at (0,0) and (1,0) are pushed to (-1,0) and (1,0). |
| KernelScenarios.PairAvoidance | Assets/Tests/Tests/CorrectnessTests.cs:21-22 | With `sqrt(1) = 1`, the pair is separated, and each agent's avoidance vector is the unit vector away from the other. |
| KernelScenarios.AvoidanceOfTriangle | Assets/Tests/Tests/CorrectnessTests.cs:36-56 | For agents at (0,1), (0,0) and (1,0), the outputs are (-1/q, 1 + 1/q), (-1,-1) and (1 + 1/q, -1/q), where `q = sqrt(sqrt(2))` for the parameter `sqrt`. |
| KernelScenarios.TriangleAvoidance | Assets/Tests/Tests/CorrectnessTests.cs:40-45 | The triangle's avoidance vectors, from the pushes of the agents on each other. |
| KernelScenarios.AvoidanceOfThree | Assets/Scripts/BoidsMath.cs:10-20 | For three agents, each avoidance vector is the push of the lower-indexed other agent, then that of the higher-indexed one. |
| KernelScenarios.CohesionOfPair | Assets/Tests/Tests/CorrectnessTests.cs:58-76 | Each agent of the pair is sent half a unit towards the other. |
| KernelScenarios.AlignmentOfPair | Assets/Tests/Tests/CorrectnessTests.cs:78-96 | Both agents of the pair get (0.5, 0). |
| KernelScenarios.SumThree | Assets/Tests/Tests/CorrectnessTests.cs:98-119 | The sum of the test's vectors is (5,5,5), (7,7,7) and (8,8,8). |
| KernelScenarios.FlockOfPair | Assets/Tests/Tests/CorrectnessTests.cs:121-150 | Avoidance plus cohesion plus alignment of the pair, with the second sum written over its own input, gives back (0,0) and (1,0). |
| KernelScenarios.ScaleEach | Assets/Tests/Tests/CorrectnessTests.cs:152-177 | The per-element scaling gives the five vectors the test expects. |
| KernelScenarios.NormalizePair | Assets/Tests/Tests/CorrectnessTests.cs:179-196 | (1,0,0) normalises to itself, and (0.5,0.5,0) to its own normalisation. |
| KernelScenarios.WrapPair | Assets/Tests/Tests/CorrectnessTests.cs:198-213 | On a 10 × 10 field, (12,0) wraps to (2,0) and (0,12) to (0,2). |

## Left out

- `Playground.cs` and `BoidsManager.cs` are not part of this model. They hold the scene set-up, the per-frame update and the steering of the agents.
- Floats are exact reals. Rounding, infinities and NaN are not modelled, and neither are the 0.01 tolerances of the tests. 32-bit integer overflow of lengths and indices is not modelled either.
- Square roots are a parameter `sqrt`. Properties that need a value of it state that value as a precondition.
- Unity's `Assert.AreEqual` only logs a failure by default; it does not stop execution.
- In the source, `BComponent<T>` is a struct. It is modelled as an object that shares its backing array. The source only updates cells through the grid's own array elements, where a struct and an object behave alike. Copies of a struct passed by value are not modelled.
- The tests construct a generic `SpatialPartitioner<Vector3>`. The model follows the non-generic class of `SpatialPartitioner.cs`.
- An out-of-range array access throws an exception in the source. The model states instead, as preconditions, the conditions under which no access is out of range:
  - `Sum`, `Sub`, `ScalePerElement`, `GetAvoidanceVector`, `GetCoheranceVector`, `GetAlignmentVector`, `ScaleUniform`, `Normalize`, `WrapBetween`: no index past the end of an array.
  - `UpdateIndex`: every agent in the grid, and room in its cell.
  - `Partition` and `Write`: every index in range.
- BoidsMath.Sum: the length check's failure is an `Outcome` value. The loop still runs afterwards, as in the source.
- BoidsMath.Sub: the length check's failure is an `Outcome` value. The loop still runs afterwards, as in the source.
- BoidsMath.GetAvoidanceVector: requires the output and the input to be different arrays. In the source, writing over the input changes the avoidance of later agents; that aliased result is not modelled.
- BoidsMath.GetAvoidanceVector: requires the agents to be separated, so that no distance has a zero square root. The source's division by zero (infinity or NaN) is not modelled.
- BoidsMath.GetAlignmentVector: requires the output and the input to be different arrays. The source recomputes the mean for every agent from inputs it may already have overwritten; that aliased result is not modelled.
- BoidsMath.GetCoheranceVector: says nothing about zero agents beyond leaving the output unchanged. There, the source divides the zero vector by zero; it writes nothing, since its second loop does not run.
- BoidsMath.WrapBetween: requires positive bounds. `Mathf.Repeat` with a zero or negative length is not modelled.
- SpatialPartitioning.SpatialPartitioner.constructor: requires a non-zero cell size, and a grid of at least zero rows and columns.
- SpatialPartitioning.SpatialPartitioner.Resize: requires every cell of the component to have room for its index-map cell's length. The source sets `Length` on any grid, even past the backing array's capacity; the model refuses that case.
- SpatialPartitioning.SpatialPartitioner.Write: requires the target to share no array with the index map or with the grid it reads from.
- SpatialPartitioning.SpatialPartitioner.Partition: requires the output grid to share no array with the index map or with the data.
- KernelScenarios.SumThree: the source's SumVecsTest compares each result with itself, so it checks nothing. `SumThree` proves the sums that test lists as expected.
- KernelScenarios.NormalizePair: states the second vector's value as its normalisation, not as a decimal number, because `sqrt` is a parameter.
