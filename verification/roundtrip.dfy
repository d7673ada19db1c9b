/** What gathering and scattering promise together: Partition followed by
    Write gives the data back, and an edit made to one gathered value reaches
    exactly the agent it was gathered from (SpatialPartitionerTests.cs,
    WriteToTest). */
module RoundTrip {
  import opened Buffers
  import opened Vectors
  import opened PartitionSpec
  import opened SpatialPartitioning

  /** Filing into a grid that holds nothing: every cell ends up holding
      exactly the agents that lie in it, in index order, and every agent is
      filed exactly once. */
  method FileFromEmpty(sp: SpatialPartitioner, positions: BComponent<Vector3>)
    requires sp.Valid() && positions.Valid()
    requires sp.model == EmptyGrid(sp.MaxRowIndex() + 1, sp.MaxColIndex() + 1)
    requires AllInside(sp.model, AgentCells(positions.Elements(), sp.spaceUnit), positions.length)
    requires RoomFor(sp.model, AgentCells(positions.Elements(), sp.spaceUnit), positions.length, sp.spaceMaxEntity)
    modifies sp, sp.cells, sp.stores
    ensures sp.Valid()
    ensures forall r, c :: sp.InGrid(r, c) ==>
              sp.model[r][c] == Bucket(AgentCells(positions.Elements(), sp.spaceUnit), (r, c), positions.length)
    ensures Unique(sp.model)
    ensures multiset(Flatten(sp.model)) == AgentsBelow(positions.length)
  {
    ghost var rows, cols := sp.MaxRowIndex() + 1, sp.MaxColIndex() + 1;
    ghost var cells := AgentCells(positions.Elements(), sp.spaceUnit);
    FlattenEmpty(sp.model, rows);
    var _ := sp.UpdateIndex(positions);
    FiledFromEmpty(rows, cols, cells, positions.length);
    FiledFromEmptyUnique(rows, cols, cells, positions.length);
  }

  /** ResetIndex then UpdateIndex, as every step of the simulation does:
      whatever the grid held before, afterwards every agent is filed exactly
      once, in the cell its position falls in. */
  method Rebuild(sp: SpatialPartitioner, positions: BComponent<Vector3>)
    requires sp.Valid() && positions.Valid()
    requires AllInside(EmptyGrid(sp.MaxRowIndex() + 1, sp.MaxColIndex() + 1),
                       AgentCells(positions.Elements(), sp.spaceUnit), positions.length)
    requires RoomFor(EmptyGrid(sp.MaxRowIndex() + 1, sp.MaxColIndex() + 1),
                     AgentCells(positions.Elements(), sp.spaceUnit), positions.length, sp.spaceMaxEntity)
    modifies sp, sp.cells, sp.stores
    ensures sp.Valid()
    ensures forall r, c :: sp.InGrid(r, c) ==>
              sp.model[r][c] == Bucket(AgentCells(positions.Elements(), sp.spaceUnit), (r, c), positions.length)
    ensures Unique(sp.model)
    ensures multiset(Flatten(sp.model)) == AgentsBelow(positions.length)
  {
    var _ := sp.ResetIndex();
    FileFromEmpty(sp, positions);
  }

  /** Partition then Write, with no edit in between, leaves data unchanged. */
  method PartitionThenWrite<T>(sp: SpatialPartitioner, data: BComponent<T>, output: array2<BComponent<T>>)
    requires sp.Valid() && GridValid(output) && sp.Covers(output) && sp.Disjoint(output)
    requires data.data !in Arrays(output) && data.data as object !in sp.stores
    requires forall r, c :: sp.InGrid(r, c) ==> |sp.model[r][c]| <= output[r, c].data.Length
    requires forall r, c, k :: sp.InGrid(r, c) && 0 <= k < |sp.model[r][c]| ==> 0 <= sp.model[r][c][k] < data.data.Length
    modifies Cells(output), Arrays(output), data.data
    ensures data.data[..] == old(data.data[..])
  {
    var out := sp.Partition(data, output);
    ghost var a := data.data[..];
    GatheredFits(sp, data, out);
    sp.PendingEntries(out);
    ghost var w := Pending(Backing(sp.indexMap), Contents(out));
    sp.Write(out, data);
    ScatterGathered(a, w);
  }

  /** Partition, replace the k0-th value gathered into cell (r0, c0) by v,
      then Write: the agent that value came from now holds v, and every other
      agent keeps its value, provided no agent is filed twice. */
  method PartitionEditWrite<T>(sp: SpatialPartitioner, data: BComponent<T>, output: array2<BComponent<T>>,
                               r0: int, c0: int, k0: int, v: T)
    requires sp.Valid() && Unique(sp.model) && GridValid(output) && sp.Covers(output) && sp.Disjoint(output)
    requires data.data !in Arrays(output) && data.data as object !in sp.stores
    requires forall r, c :: sp.InGrid(r, c) ==> |sp.model[r][c]| <= output[r, c].data.Length
    requires forall r, c, k :: sp.InGrid(r, c) && 0 <= k < |sp.model[r][c]| ==> 0 <= sp.model[r][c][k] < data.data.Length
    requires sp.InGrid(r0, c0) && 0 <= k0 < |sp.model[r0][c0]|
    modifies Cells(output), Arrays(output), data.data
    ensures data.data[..] == old(data.data[..])[sp.model[r0][c0][k0] := v]
  {
    var out := sp.Partition(data, output);
    EditThenWrite(sp, data, out, r0, c0, k0, v);
  }

  /** The second half of PartitionEditWrite, on a grid Partition has just
      gathered from data. */
  method EditThenWrite<T>(sp: SpatialPartitioner, data: BComponent<T>, out: array2<BComponent<T>>,
                          r0: int, c0: int, k0: int, v: T)
    requires sp.Valid() && Unique(sp.model) && GridValid(out) && sp.Covers(out) && sp.Disjoint(out)
    requires data.data !in Arrays(out) && data.data as object !in sp.stores
    requires forall r, c :: sp.InGrid(r, c) ==> out[r, c].length == |sp.model[r][c]|
    requires forall r, c, k :: sp.InGrid(r, c) && 0 <= k < |sp.model[r][c]| ==>
               0 <= sp.model[r][c][k] < data.data.Length && out[r, c].data[k] == data.data[sp.model[r][c][k]]
    requires sp.InGrid(r0, c0) && 0 <= k0 < |sp.model[r0][c0]|
    modifies out[r0, c0].data, data.data
    ensures data.data[..] == old(data.data[..])[sp.model[r0][c0][k0] := v]
  {
    GatheredFits(sp, data, out);
    ghost var a := data.data[..];
    out[r0, c0].data[k0] := v;
    EditedPending(sp, out, a, r0, c0, k0, v);
    sp.Write(out, data);
  }

  /** Scattering a gathered grid in which only the k0-th value of cell
      (r0, c0) was replaced by v changes only the slot of the agent filed
      there, when no agent is filed twice. */
  lemma EditedPending<T>(sp: SpatialPartitioner, out: array2<BComponent<T>>, a: seq<T>, r0: int, c0: int, k0: int, v: T)
    requires sp.Valid() && Unique(sp.model) && GridValid(out) && sp.Covers(out)
    requires forall r, c :: sp.InGrid(r, c) ==> out[r, c].length == |sp.model[r][c]|
    requires sp.InGrid(r0, c0) && 0 <= k0 < |sp.model[r0][c0]| && out[r0, c0].data[k0] == v
    requires forall r, c, k :: sp.InGrid(r, c) && 0 <= k < |sp.model[r][c]| ==>
               0 <= sp.model[r][c][k] < |a| && ((r, c, k) != (r0, c0, k0) ==> out[r, c].data[k] == a[sp.model[r][c][k]])
    ensures Apply(a, Flatten(Pending(Backing(sp.indexMap), Contents(out)))) == a[sp.model[r0][c0][k0] := v]
  {
    sp.PendingEntries(out);
    ScatterOneEdit(a, Pending(Backing(sp.indexMap), Contents(out)), r0, c0, k0, v);
  }

  /** A grid just gathered by Partition meets Write's demands: no cell holds
      more than its index list has slots, and every index read names an
      element of data. */
  lemma GatheredFits<T>(sp: SpatialPartitioner, data: BComponent<T>, out: array2<BComponent<T>>)
    requires sp.Valid() && GridValid(out) && sp.Covers(out)
    requires forall r, c :: sp.InGrid(r, c) ==> out[r, c].length == |sp.model[r][c]|
    requires forall r, c, k :: sp.InGrid(r, c) && 0 <= k < |sp.model[r][c]| ==> 0 <= sp.model[r][c][k] < data.data.Length
    ensures forall r, c :: sp.InGrid(r, c) ==> out[r, c].length <= sp.spaceMaxEntity
    ensures forall r, c, k :: sp.InGrid(r, c) && 0 <= k < out[r, c].length ==>
              0 <= sp.indexMap[r, c].data[k] < data.data.Length
  {
    forall r, c | sp.InGrid(r, c)
      ensures out[r, c].length <= sp.spaceMaxEntity
      ensures forall k :: 0 <= k < out[r, c].length ==> 0 <= sp.indexMap[r, c].data[k] < data.data.Length
    {
      assert sp.model[r][c] == sp.indexMap[r, c].Elements();
    }
  }
}
