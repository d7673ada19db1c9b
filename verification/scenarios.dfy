/** The partitioner on the inputs of its own test suite
    (SpatialPartitionerTests.cs): a 19.2 x 10.8 screen cut into unit cells,
    five agents on the diagonal, and an edit written back. */
module Scenarios {
  import opened Buffers
  import opened Vectors
  import opened PartitionSpec
  import opened SpatialPartitioning
  import opened RoundTrip

  /** The five agents of the tests: three on cell corners, two inside a
      cell. */
  function Diagonal(): seq<Vector3> {
    [Vector3(0.0, 0.0, 0.0), Vector3(1.0, 1.0, 0.0), Vector3(2.0, 2.0, 0.0),
     Vector3(2.5, 2.5, 0.0), Vector3(3.5, 3.5, 0.0)]
  }

  /** With unit cells the agents fall in (0, 0), (1, 1), (2, 2), (2, 2) and
      (3, 3): the two agents at 2 and 2.5 share a cell. */
  lemma DiagonalCells()
    ensures AgentCells(Diagonal(), 1.0) == [(0, 0), (1, 1), (2, 2), (2, 2), (3, 3)]
  {
    var ps := Diagonal();
    assert CellOf(ps[3], 1.0) == (2, 2);
    assert CellOf(ps[4], 1.0) == (3, 3);
  }

  /** Filed from an empty grid, cell (2, 2) holds agents 2 and 3 in that
      order, and each other occupied cell holds one agent. */
  lemma DiagonalBuckets()
    ensures var cells := AgentCells(Diagonal(), 1.0);
      Bucket(cells, (0, 0), 5) == [0] && Bucket(cells, (1, 1), 5) == [1] &&
      Bucket(cells, (2, 2), 5) == [2, 3] && Bucket(cells, (3, 3), 5) == [4] &&
      Bucket(cells, (4, 4), 5) == []
  {
    DiagonalCells();
  }

  /** A bucket of the first n agents holds at most n of them. */
  lemma {:induction false} BucketSize(cells: seq<(int, int)>, cell: (int, int), n: nat)
    requires n <= |cells|
    ensures |Bucket(cells, cell, n)| <= n
  {
    if n > 0 {
      BucketSize(cells, cell, n - 1);
    }
  }

  /** InitializationTest and PartitionDimensionTest: a 19.2 x 10.8 screen in unit cells is a grid of
      20 rows and 11 columns, each cell empty and able to hold the given
      number of agents. */
  method ScreenGrid(capacity: nat) returns (sp: SpatialPartitioner)
    ensures sp.Valid() && sp.spaceUnit == 1.0 && sp.spaceMaxEntity == capacity
    ensures sp.screenWidth == 19.2 && sp.screenHeight == 10.8
    ensures sp.MaxRowIndex() == 19 && sp.MaxColIndex() == 10
    ensures sp.indexMap.Length0 == 20 && sp.indexMap.Length1 == 11
    ensures sp.model == EmptyGrid(sp.MaxRowIndex() + 1, sp.MaxColIndex() + 1)
    ensures fresh(sp) && fresh(sp.cells) && fresh(sp.stores)
  {
    sp := new SpatialPartitioner(1.0, 19.2, 10.8, capacity);
  }

  /** The diagonal agents in a buffer of their own. */
  method DiagonalBuffer() returns (sample: BComponent<Vector3>)
    ensures fresh(sample) && fresh(sample.data)
    ensures sample.Valid() && sample.data.Length == 5 && sample.Elements() == sample.data[..] == Diagonal()
  {
    var vec := new Vector3[5](i requires 0 <= i < 5 => Diagonal()[i]);
    sample := new BComponent(vec, 5);
  }

  /** A grid of buffers to gather into, one per cell of sp, made of new
      objects only and so sharing no store with data. */
  method GatherGrid(sp: SpatialPartitioner, data: array<Vector3>) returns (ret: array2<BComponent<Vector3>>)
    requires sp.Valid()
    ensures ret.Length0 == sp.MaxRowIndex() + 1 && ret.Length1 == sp.MaxColIndex() + 1
    ensures GridValid(ret) && sp.Covers(ret) && sp.Disjoint(ret) && data !in Arrays(ret)
    ensures fresh(Cells(ret)) && fresh(Arrays(ret))
    ensures forall r, c :: InBounds(ret, r, c) ==> ret[r, c].data.Length == sp.spaceMaxEntity
  {
    ret := sp.MallocSpace<Vector3>();
  }

  /** UpdateIndexTest: the diagonal agents filed into an empty partitioner
      of unit cells with room for ten agents each. Cell (0, 0) holds agent 0
      alone, no agent is filed twice, and every filed agent is one of the
      five. */
  method FileDiagonal(sp: SpatialPartitioner, sample: BComponent<Vector3>)
    requires sp.Valid() && sp.spaceUnit == 1.0 && sp.spaceMaxEntity == 10
    requires sp.MaxRowIndex() == 19 && sp.MaxColIndex() == 10
    requires sp.model == EmptyGrid(sp.MaxRowIndex() + 1, sp.MaxColIndex() + 1)
    requires sample.Valid() && sample.Elements() == Diagonal()
    modifies sp, sp.cells, sp.stores
    ensures sp.Valid() && Unique(sp.model)
    ensures sp.model[0][0] == [0] && sp.model[1][1] == [1] && sp.model[2][2] == [2, 3] && sp.model[3][3] == [4]
    ensures forall r, c :: sp.InGrid(r, c) && !(r == c && r < 4) ==> sp.model[r][c] == []
    ensures forall r, c :: sp.InGrid(r, c) ==> |sp.model[r][c]| <= 5
    ensures forall r, c, k :: sp.InGrid(r, c) && 0 <= k < |sp.model[r][c]| ==> 0 <= sp.model[r][c][k] < 5
  {
    Filing(sp.model, AgentCells(sample.Elements(), sp.spaceUnit), sample.length);
    FileFromEmpty(sp, sample);
    Gatherable(sp, AgentCells(sample.Elements(), sp.spaceUnit), sample.length);
    DiagonalBuckets();
    DiagonalElsewhere();
  }

  /** No agent of the diagonal lies off the first four diagonal cells. */
  lemma DiagonalElsewhere()
    ensures forall r, c :: !(r == c && 0 <= r < 4) ==> Bucket(AgentCells(Diagonal(), 1.0), (r, c), 5) == []
  {
    var cells := AgentCells(Diagonal(), 1.0);
    DiagonalCells();
    forall r, c | !(r == c && 0 <= r < 4)
      ensures Bucket(cells, (r, c), 5) == []
    {
      BucketAbsent(cells, (r, c), 5);
    }
  }

  /** PartitionSpaceTest and PartitionValueTest: gathering the diagonal
      agents puts agent 0 in cell (0, 0), agent 1 in (1, 1), agents 2 and 3
      in (2, 2) in that order, agent 4 in (3, 3), and nothing anywhere else. */
  method GatherDiagonal() returns (ret: array2<BComponent<Vector3>>)
    ensures ret.Length0 == 20 && ret.Length1 == 11 && GridValid(ret)
    ensures ret[0, 0].Elements() == [Vector3(0.0, 0.0, 0.0)]
    ensures ret[1, 1].Elements() == [Vector3(1.0, 1.0, 0.0)]
    ensures ret[2, 2].Elements() == [Vector3(2.0, 2.0, 0.0), Vector3(2.5, 2.5, 0.0)]
    ensures ret[3, 3].Elements() == [Vector3(3.5, 3.5, 0.0)]
    ensures forall r, c :: 0 <= r < 20 && 0 <= c < 11 && !(r == c && r < 4) ==> ret[r, c].length == 0
  {
    var sample := DiagonalBuffer();
    var sp := ScreenGrid(10);
    FileDiagonal(sp, sample);
    ret := GatherFiled(sp, sample);
  }

  /** The gathering half of GatherDiagonal, once the diagonal agents are
      filed. */
  method GatherFiled(sp: SpatialPartitioner, sample: BComponent<Vector3>) returns (ret: array2<BComponent<Vector3>>)
    requires sp.Valid() && sp.spaceMaxEntity == 10 && sp.MaxRowIndex() == 19 && sp.MaxColIndex() == 10
    requires sp.model[0][0] == [0] && sp.model[1][1] == [1] && sp.model[2][2] == [2, 3] && sp.model[3][3] == [4]
    requires forall r, c :: sp.InGrid(r, c) && !(r == c && r < 4) ==> sp.model[r][c] == []
    requires forall r, c :: sp.InGrid(r, c) ==> |sp.model[r][c]| <= 5
    requires forall r, c, k :: sp.InGrid(r, c) && 0 <= k < |sp.model[r][c]| ==> 0 <= sp.model[r][c][k] < 5
    requires sample.Valid() && sample.data[..] == Diagonal()
    ensures ret.Length0 == 20 && ret.Length1 == 11 && GridValid(ret)
    ensures ret[0, 0].Elements() == [Vector3(0.0, 0.0, 0.0)]
    ensures ret[1, 1].Elements() == [Vector3(1.0, 1.0, 0.0)]
    ensures ret[2, 2].Elements() == [Vector3(2.0, 2.0, 0.0), Vector3(2.5, 2.5, 0.0)]
    ensures ret[3, 3].Elements() == [Vector3(3.5, 3.5, 0.0)]
    ensures forall r, c :: 0 <= r < 20 && 0 <= c < 11 && !(r == c && r < 4) ==> ret[r, c].length == 0
  {
    ret := GatherGrid(sp, sample.data);
    ghost var was := Backing(ret);
    ret := sp.Partition(sample, ret);
    ReadDiagonal(sp, ret, was);
  }

  /** A grid gathered from the diagonal agents as filed by FileDiagonal. */
  lemma ReadDiagonal(sp: SpatialPartitioner, ret: array2<BComponent<Vector3>>, was: Grid<Vector3>)
    requires sp.spaceUnit != 0.0 && sp.MaxRowIndex() == 19 && sp.MaxColIndex() == 10
    requires |sp.model| == 20 && forall r :: 0 <= r < 20 ==> |sp.model[r]| == 11
    requires sp.model[0][0] == [0] && sp.model[1][1] == [1] && sp.model[2][2] == [2, 3] && sp.model[3][3] == [4]
    requires forall r, c :: sp.InGrid(r, c) && !(r == c && r < 4) ==> sp.model[r][c] == []
    requires ret.Length0 == 20 && ret.Length1 == 11 && GridValid(ret)
    requires |was| == 20 && forall r :: 0 <= r < 20 ==> |was[r]| == 11
    requires forall r, c {:trigger was[r][c]} :: sp.InGrid(r, c) ==>
               Gathered(ret[r, c].data[..], ret[r, c].length, Diagonal(), sp.model[r][c], was[r][c])
    ensures ret[0, 0].Elements() == [Vector3(0.0, 0.0, 0.0)]
    ensures ret[1, 1].Elements() == [Vector3(1.0, 1.0, 0.0)]
    ensures ret[2, 2].Elements() == [Vector3(2.0, 2.0, 0.0), Vector3(2.5, 2.5, 0.0)]
    ensures ret[3, 3].Elements() == [Vector3(3.5, 3.5, 0.0)]
    ensures forall r, c :: 0 <= r < 20 && 0 <= c < 11 && !(r == c && r < 4) ==> ret[r, c].length == 0
  {
    assert sp.InGrid(0, 0) && sp.InGrid(1, 1) && sp.InGrid(2, 2) && sp.InGrid(3, 3);
    ReadDiagonalCell(ret[0, 0], sp.model[0][0], was[0][0]);
    ReadDiagonalCell(ret[1, 1], sp.model[1][1], was[1][1]);
    ReadDiagonalCell(ret[2, 2], sp.model[2][2], was[2][2]);
    ReadDiagonalCell(ret[3, 3], sp.model[3][3], was[3][3]);
    forall r, c | 0 <= r < 20 && 0 <= c < 11 && !(r == c && r < 4)
      ensures ret[r, c].length == 0
    {
      assert sp.InGrid(r, c) && was[r][c] == was[r][c];
    }
  }

  /** What a buffer gathered from the diagonal agents holds, for the index
      lists the diagonal cells get. */
  lemma ReadDiagonalCell(b: BComponent<Vector3>, idx: seq<int>, was: seq<Vector3>)
    requires b.Valid() && Gathered(b.data[..], b.length, Diagonal(), idx, was)
    ensures idx == [0] ==> b.Elements() == [Vector3(0.0, 0.0, 0.0)]
    ensures idx == [1] ==> b.Elements() == [Vector3(1.0, 1.0, 0.0)]
    ensures idx == [2, 3] ==> b.Elements() == [Vector3(2.0, 2.0, 0.0), Vector3(2.5, 2.5, 0.0)]
    ensures idx == [4] ==> b.Elements() == [Vector3(3.5, 3.5, 0.0)]
  {
  }

  /** WriteToTest: the agents are filed, gathered, the first value gathered
      into cell (0, 0) is replaced, and the grid is written back: agent 0 now
      holds the new value and the other agents keep theirs. */
  method WriteBack() returns (sample: BComponent<Vector3>)
    ensures sample.Valid() && sample.data[..] == Diagonal()[0 := Vector3(0.3, 0.23, 0.0)]
  {
    sample := DiagonalBuffer();
    var sp := ScreenGrid(10);
    FileDiagonal(sp, sample);
    EditFirst(sp, sample, Vector3(0.3, 0.23, 0.0));
  }

  /** The second half of WriteToTest: with agent 0 alone in cell (0, 0),
      gathering, replacing the first value of that cell by v and writing back
      sets agent 0 to v and leaves the others. */
  method EditFirst(sp: SpatialPartitioner, sample: BComponent<Vector3>, v: Vector3)
    requires sp.Valid() && Unique(sp.model) && sp.spaceMaxEntity == 10 && sp.InGrid(0, 0) && sp.model[0][0] == [0]
    requires forall r, c :: sp.InGrid(r, c) ==> |sp.model[r][c]| <= 5
    requires forall r, c, k :: sp.InGrid(r, c) && 0 <= k < |sp.model[r][c]| ==> 0 <= sp.model[r][c][k] < 5
    requires sample.Valid() && sample.data.Length == 5 && sample.data as object !in sp.stores
    modifies sample.data
    ensures sample.data[..] == old(sample.data[..])[0 := v]
  {
    var ret := GatherGrid(sp, sample.data);
    PartitionEditWrite(sp, sample, ret, 0, 0, 0, v);
  }

  /** The diagonal agents all lie in an empty 20 x 11 grid, and no cell gets
      more than ten of them. */
  lemma Filing(g: Grid<int>, cells: seq<(int, int)>, n: nat)
    requires g == EmptyGrid(20, 11) && cells == AgentCells(Diagonal(), 1.0) && n == 5
    ensures AllInside(g, cells, n) && RoomFor(g, cells, n, 10)
  {
    DiagonalCells();
    forall r, c | 0 <= r < 20 && 0 <= c < 11
      ensures |g[r][c]| + |Bucket(cells, (r, c), n)| <= 10
    {
      BucketSize(cells, (r, c), n);
    }
  }

  /** Once every cell holds its bucket of the first n agents, no cell lists
      more than n agents and every agent listed is one of them. */
  lemma Gatherable(sp: SpatialPartitioner, cells: seq<(int, int)>, n: nat)
    requires sp.Valid() && n <= |cells|
    requires forall r, c :: sp.InGrid(r, c) ==> sp.model[r][c] == Bucket(cells, (r, c), n)
    ensures forall r, c :: sp.InGrid(r, c) ==> |sp.model[r][c]| <= n
    ensures forall r, c, k :: sp.InGrid(r, c) && 0 <= k < |sp.model[r][c]| ==> 0 <= sp.model[r][c][k] < n
  {
    forall r, c | sp.InGrid(r, c)
      ensures |sp.model[r][c]| <= n
      ensures forall k :: 0 <= k < |sp.model[r][c]| ==> 0 <= sp.model[r][c][k] < n
    {
      BucketMembers(cells, (r, c), n);
      BucketSize(cells, (r, c), n);
    }
  }
}
