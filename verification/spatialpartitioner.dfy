/** The uniform grid over the screen (SpatialPartitioner.cs): every cell keeps
    the indices of the agents that lie in it, and per-agent data can be
    gathered into the grid's layout and scattered back. */
module SpatialPartitioning {
  import opened Buffers
  import opened Vectors
  import opened PartitionSpec

  /** C#'s (int) cast of a float: truncation toward zero. */
  function Trunc(x: real): (r: int)
    ensures 0.0 <= x ==> r as real <= x < r as real + 1.0
    ensures x < 0.0 ==> r as real - 1.0 < x <= r as real
  {
    if x >= 0.0 then x.Floor else -((-x).Floor)
  }

  /** The cell (row, column) an agent at p falls in: the row follows x, the
      column follows y. */
  function CellOf(p: Vector3, unit: real): (int, int)
    requires unit != 0.0
  {
    (Trunc(p.x / unit), Trunc(p.y / unit))
  }

  /** The cell of every agent. */
  function AgentCells(ps: seq<Vector3>, unit: real): seq<(int, int)>
    requires unit != 0.0
  {
    seq(|ps|, i requires 0 <= i < |ps| => CellOf(ps[i], unit))
  }

  // ---------------------------------------------------------------------------
  // Grids of buffers

  ghost predicate InBounds<T>(g: array2<T>, r: int, c: int) {
    0 <= r < g.Length0 && 0 <= c < g.Length1
  }

  ghost function Cells<T>(g: array2<BComponent<T>>): set<BComponent<T>>
    reads g
  {
    set r, c | 0 <= r < g.Length0 && 0 <= c < g.Length1 :: g[r, c]
  }

  ghost function Arrays<T>(g: array2<BComponent<T>>): set<array<T>>
    reads g
  {
    set r, c | 0 <= r < g.Length0 && 0 <= c < g.Length1 :: g[r, c].data
  }

  /** Every cell is a valid buffer and no two cells share a backing store (in
      the source the cells are structs held by value in the grid, each given
      its own array). */
  ghost predicate GridValid<T>(g: array2<BComponent<T>>)
    reads g, Cells(g)
  {
    (forall r, c :: InBounds(g, r, c) ==> g[r, c].Valid()) && Distinct(g)
  }

  /** No two cells of g share a backing store. */
  ghost predicate Distinct<T>(g: array2<BComponent<T>>)
    reads g
  {
    forall r, c, r', c' :: InBounds(g, r, c) && InBounds(g, r', c') && (r, c) != (r', c') ==>
      g[r, c].data != g[r', c'].data
  }

  /** The whole backing store of every cell, stale slots included. */
  ghost function Backing<T>(g: array2<BComponent<T>>): (s: Grid<T>)
    reads g, Arrays(g)
    ensures |s| == g.Length0
    ensures forall r :: 0 <= r < g.Length0 ==> |s[r]| == g.Length1
    ensures forall r, c {:trigger s[r][c]} :: InBounds(g, r, c) ==> s[r][c] == g[r, c].data[..]
  {
    seq(g.Length0, r requires 0 <= r < g.Length0 reads g, Arrays(g) =>
      seq(g.Length1, c requires 0 <= c < g.Length1 reads g, Arrays(g) => g[r, c].data[..]))
  }

  /** The logical contents of every cell. */
  ghost function Contents<T>(g: array2<BComponent<T>>): (s: Grid<T>)
    reads g, Cells(g), Arrays(g)
    requires GridValid(g)
    ensures |s| == g.Length0
    ensures forall r :: 0 <= r < g.Length0 ==> |s[r]| == g.Length1
    ensures forall r, c {:trigger s[r][c]} :: InBounds(g, r, c) ==> s[r][c] == g[r, c].Elements()
  {
    seq(g.Length0, r requires 0 <= r < g.Length0 && GridValid(g) reads g, Cells(g), Arrays(g) =>
      seq(g.Length1, c requires 0 <= c < g.Length1 && GridValid(g) reads g, Cells(g), Arrays(g) =>
        g[r, c].data[..g[r, c].length]))
  }

  /** A fresh rows x cols grid of empty buffers of the given capacity, no two
      sharing a backing store. */
  method NewGrid<K(0)>(rows: nat, cols: nat, capacity: nat) returns (g: array2<BComponent<K>>)
    ensures fresh(g) && g.Length0 == rows && g.Length1 == cols
    ensures GridValid(g)
    ensures forall r, c :: InBounds(g, r, c) ==>
              fresh(g[r, c]) && fresh(g[r, c].data) &&
              g[r, c].length == 0 && g[r, c].data.Length == capacity
  {
    var empty := new K[0];
    var placeholder := new BComponent<K>(empty, 0);
    g := new BComponent<K>[rows, cols]((_, _) => placeholder);
    // Each backing store allocated so far, with the cell it was given.
    ghost var owner: map<array<K>, (int, int)> := map[];
    for row := 0 to rows
      invariant forall r, c :: InBounds(g, r, c) && r < row ==>
                  fresh(g[r, c]) && fresh(g[r, c].data) && g[r, c].Valid() &&
                  g[r, c].length == 0 && g[r, c].data.Length == capacity &&
                  g[r, c].data in owner && owner[g[r, c].data] == (r, c)
    {
      for col := 0 to cols
        invariant forall r, c :: InBounds(g, r, c) && (r < row || (r == row && c < col)) ==>
                    fresh(g[r, c]) && fresh(g[r, c].data) && g[r, c].Valid() &&
                    g[r, c].length == 0 && g[r, c].data.Length == capacity &&
                    g[r, c].data in owner && owner[g[r, c].data] == (r, c)
      {
        var cell := EmptyBuffer<K>(capacity);
        g[row, col] := cell;
        owner := owner[cell.data := (row, col)];
      }
    }
  }

  /** A new empty buffer with a backing store of its own. */
  method EmptyBuffer<K(0)>(capacity: nat) returns (b: BComponent<K>)
    ensures fresh(b) && fresh(b.data) && b.Valid() && b.length == 0 && b.data.Length == capacity
  {
    var a := new K[capacity];
    b := new BComponent<K>(a, 0);
  }

  /** The inner loop of Partition: out takes the length of idx and, slot by
      slot, the values of data its indices name. */
  method GatherCell<T>(idx: BComponent<int>, data: array<T>, out: BComponent<T>, ghost list: seq<int>, ghost was: seq<T>)
    requires idx.Valid() && out.Valid() && idx.length <= out.data.Length
    requires list == idx.Elements() && was == out.data[..]
    requires forall k :: 0 <= k < idx.length ==> 0 <= idx.data[k] < data.Length
    requires out.data != data && out.data as object != idx.data
    modifies out, out.data
    ensures out.Valid() && Gathered(out.data[..], out.length, data[..], list, was)
  {
    out.length := idx.length;
    for i := 0 to out.length
      invariant out.Valid() && out.length == idx.length
      invariant forall k :: 0 <= k < i ==> out.data[k] == data[idx.data[k]]
      invariant forall k :: i <= k < out.data.Length ==> out.data[k] == old(out.data[k])
    {
      out.data[i] := data[idx.data[i]];
    }
  }

  /** A buffer whose backing store holds vals and whose length is length
      holds the values of a at the indices idx, and keeps in its other slots
      those of was. */
  ghost predicate Gathered<T>(vals: seq<T>, length: nat, a: seq<T>, idx: seq<int>, was: seq<T>) {
    length == |idx| <= |vals| == |was| &&
    (forall k :: 0 <= k < |idx| ==> 0 <= idx[k] < |a| && vals[k] == a[idx[k]]) &&
    forall k :: |idx| <= k < |vals| ==> vals[k] == was[k]
  }

  /** The inner loop of Write: the k-th value of from goes to the slot of to
      named by the k-th index of idx, for every k below from's length. */
  method ScatterCell<T>(idx: BComponent<int>, from: BComponent<T>, to: array<T>)
    requires from.Valid() && from.length <= idx.data.Length
    requires forall k :: 0 <= k < from.length ==> 0 <= idx.data[k] < to.Length
    requires to != from.data && to as object != idx.data
    modifies to
    ensures to[..] == Apply(old(to[..]), Zip(idx.data[..from.length], from.Elements()))
  {
    for i := 0 to from.length
      invariant to[..] == Apply(old(to[..]), Zip(idx.data[..i], from.data[..i]))
    {
      ZipSnoc(idx.data[..], from.data[..], i);
      assert idx.data[..][..i + 1] == idx.data[..i + 1] && from.data[..][..i + 1] == from.data[..i + 1];
      assert idx.data[..][..i] == idx.data[..i] && from.data[..][..i] == from.data[..i];
      ApplySnoc(old(to[..]), Zip(idx.data[..i], from.data[..i]), (idx.data[i], from.data[i]));
      to[idx.data[i]] := from.data[i];
    }
  }

  class SpatialPartitioner {
    /** The side of one square cell. */
    const spaceUnit: real
    const screenWidth: real
    const screenHeight: real
    /** How many agents one cell can hold. */
    const spaceMaxEntity: nat
    /** For every cell, the indices of the agents in it. */
    const indexMap: array2<BComponent<int>>
    /** The lists indexMap holds, cell by cell. */
    ghost var model: Grid<int>
    /** The cells of indexMap, and their backing stores. */
    ghost const cells: set<BComponent<int>>
    ghost const stores: set<array<int>>

    /** The last row of the grid (rows follow x): the (int) cast of
        screenWidth / spaceUnit, which truncates toward zero. */
    function MaxRowIndex(): (r: int)
      requires spaceUnit != 0.0
      ensures 0.0 <= screenWidth / spaceUnit ==> r as real <= screenWidth / spaceUnit < r as real + 1.0
      ensures screenWidth / spaceUnit < 0.0 ==> r as real - 1.0 < screenWidth / spaceUnit <= r as real
    {
      Trunc(screenWidth / spaceUnit)
    }

    /** The last column of the grid (columns follow y): the (int) cast of
        screenHeight / spaceUnit, which truncates toward zero. */
    function MaxColIndex(): (c: int)
      requires spaceUnit != 0.0
      ensures 0.0 <= screenHeight / spaceUnit ==> c as real <= screenHeight / spaceUnit < c as real + 1.0
      ensures screenHeight / spaceUnit < 0.0 ==> c as real - 1.0 < screenHeight / spaceUnit <= c as real
    {
      Trunc(screenHeight / spaceUnit)
    }

    /** Rows 0 .. MaxRowIndex() cover the screen's width and columns
        0 .. MaxColIndex() its height, with no row or column to spare. */
    lemma GridCoversScreen()
      requires spaceUnit > 0.0 && screenWidth >= 0.0 && screenHeight >= 0.0
      ensures 0 <= MaxRowIndex() && MaxRowIndex() as real * spaceUnit <= screenWidth < (MaxRowIndex() + 1) as real * spaceUnit
      ensures 0 <= MaxColIndex() && MaxColIndex() as real * spaceUnit <= screenHeight < (MaxColIndex() + 1) as real * spaceUnit
    {
      LastIndexCovers(screenWidth, spaceUnit);
      LastIndexCovers(screenHeight, spaceUnit);
    }

    predicate InGrid(r: int, c: int)
      requires spaceUnit != 0.0
    {
      0 <= r <= MaxRowIndex() && 0 <= c <= MaxColIndex()
    }

    /** A grid of buffers with (at least) one cell per cell of the screen. */
    ghost predicate Covers<T>(g: array2<BComponent<T>>)
      requires spaceUnit != 0.0
    {
      g.Length0 > MaxRowIndex() && g.Length1 > MaxColIndex()
    }

    ghost predicate Valid()
      reads this, indexMap, cells, stores
    {
      Shaped() && Coupled()
    }

    /** The grid has one cell per cell of the screen, each a valid buffer of
        capacity spaceMaxEntity with a backing store of its own, and the model
        has the same shape. */
    ghost predicate Shaped()
      reads this, indexMap, cells, stores
    {
      spaceUnit != 0.0 &&
      indexMap.Length0 == MaxRowIndex() + 1 && indexMap.Length1 == MaxColIndex() + 1 &&
      (forall r, c :: InBounds(indexMap, r, c) ==>
         indexMap[r, c] in cells && indexMap[r, c].data in stores &&
         indexMap[r, c].Valid() && indexMap[r, c].data.Length == spaceMaxEntity) &&
      Distinct(indexMap) &&
      |model| == indexMap.Length0 &&
      (forall r :: 0 <= r < |model| ==> |model[r]| == indexMap.Length1)
    }

    /** Every cell holds the list the model gives it. */
    ghost predicate Coupled()
      reads this, indexMap, cells, stores
      requires Shaped()
    {
      forall r, c {:trigger indexMap[r, c]} :: InBounds(indexMap, r, c) ==> model[r][c] == indexMap[r, c].Elements()
    }

    constructor (spaceUnit: real, screenWidth: real, screenHeight: real, spaceMaxUnit: nat)
      requires spaceUnit != 0.0
      requires Trunc(screenWidth / spaceUnit) >= -1 && Trunc(screenHeight / spaceUnit) >= -1
      ensures this.spaceUnit == spaceUnit && this.screenWidth == screenWidth
      ensures this.screenHeight == screenHeight && this.spaceMaxEntity == spaceMaxUnit
      ensures Valid() && fresh(indexMap) && fresh(cells) && fresh(stores)
      ensures model == EmptyGrid(MaxRowIndex() + 1, MaxColIndex() + 1)
    {
      this.spaceUnit := spaceUnit;
      this.screenWidth := screenWidth;
      this.screenHeight := screenHeight;
      this.spaceMaxEntity := spaceMaxUnit;
      var rows := Trunc(screenWidth / spaceUnit) + 1;
      var cols := Trunc(screenHeight / spaceUnit) + 1;
      var grid := NewGrid<int>(rows, cols, spaceMaxUnit);
      indexMap := grid;
      cells := Cells(grid);
      stores := Arrays(grid);
      model := EmptyGrid(rows, cols);
    }

    /** A fresh grid of empty buffers, one per cell, each of capacity
        spaceMaxEntity. */
    method MallocSpace<K(0)>() returns (ret: array2<BComponent<K>>)
      requires spaceUnit != 0.0 && MaxRowIndex() >= -1 && MaxColIndex() >= -1
      ensures fresh(ret) && ret.Length0 == MaxRowIndex() + 1 && ret.Length1 == MaxColIndex() + 1
      ensures GridValid(ret)
      ensures forall r, c :: InBounds(ret, r, c) ==>
                fresh(ret[r, c]) && fresh(ret[r, c].data) &&
                ret[r, c].length == 0 && ret[r, c].data.Length == spaceMaxEntity
    {
      ret := NewGrid<K>(MaxRowIndex() + 1, MaxColIndex() + 1, spaceMaxEntity);
    }

    /** Files every agent, in index order, at the end of the list of the cell
        its position falls in. */
    method UpdateIndex(positions: BComponent<Vector3>) returns (map_: array2<BComponent<int>>)
      requires Valid() && positions.Valid()
      // every agent lies in a cell of the grid
      requires AllInside(model, AgentCells(positions.Elements(), spaceUnit), positions.length)
      // and every cell has room for the agents that lie in it
      requires RoomFor(model, AgentCells(positions.Elements(), spaceUnit), positions.length, spaceMaxEntity)
      modifies this, cells, stores
      ensures Valid() && map_ == indexMap
      // every cell gains, at its end, the agents that lie in it, in index order
      ensures model == Filed(old(model), AgentCells(positions.Elements(), spaceUnit), positions.length)
      // every agent is filed exactly once
      ensures multiset(Flatten(model)) == multiset(Flatten(old(model))) + AgentsBelow(positions.length)
      // and no slot of a backing store past the new end of its cell is written
      ensures forall r, c, k :: InGrid(r, c) && |model[r][c]| <= k < spaceMaxEntity ==>
                indexMap[r, c].data[k] == old(indexMap[r, c].data[k])
    {
      ghost var at := AgentCells(positions.Elements(), spaceUnit);
      ghost var before, was := model, Backing(indexMap);
      FileAll(positions, at, before, was);
      FileEachIsFiled(before, at, positions.length);
      FileEachOnce(before, at, positions.length);
      forall r, c, k | InGrid(r, c) && |model[r][c]| <= k < spaceMaxEntity
        ensures indexMap[r, c].data[k] == old(indexMap[r, c].data[k])
      {
        assert InBounds(indexMap, r, c) && was[r][c] == old(indexMap[r, c].data[..]);
      }
      map_ := indexMap;
    }

    /** The loop of UpdateIndex: the agents are filed one by one, in index
        order, starting from the lists before. */
    method FileAll(positions: BComponent<Vector3>, ghost at: seq<(int, int)>, ghost before: Grid<int>, ghost was: Grid<int>)
      requires Valid() && positions.Valid() && at == AgentCells(positions.Elements(), spaceUnit)
      requires model == before && AllInside(before, at, positions.length)
      requires RoomFor(before, at, positions.length, spaceMaxEntity)
      modifies this, cells, stores
      requires StaleKept(was)
      ensures Valid() && model == FileEach(before, at, positions.length)
      ensures StaleKept(was)
    {
      for i := 0 to positions.length
        invariant Valid() && model == FileEach(before, at, i) && StaleKept(was)
      {
        FileEachRoom(before, at, i, positions.length, spaceMaxEntity);
        File(positions, i, at, before, was);
      }
    }

    /** The body of UpdateIndex's loop: agent i goes at the end of the list of
        the cell its position falls in. */
    method File(positions: BComponent<Vector3>, i: nat, ghost at: seq<(int, int)>, ghost before: Grid<int>, ghost was: Grid<int>)
      requires Valid() && positions.Valid() && i < positions.length && i < |at|
      requires at[i] == CellOf(positions.data[i], spaceUnit)
      requires AllInside(before, at, i + 1) && model == FileEach(before, at, i)
      requires |model[at[i].0][at[i].1]| < spaceMaxEntity && StaleKept(was)
      modifies this, cells, stores
      ensures Valid() && model == FileEach(before, at, i + 1)
      ensures StaleKept(was)
    {
      var row := Trunc(positions.data[i].x / spaceUnit);
      var col := Trunc(positions.data[i].y / spaceUnit);
      var length := indexMap[row, col].length;
      indexMap[row, col].data[length] := i;
      indexMap[row, col].length := length + 1;
      model := Append(model, row, col, i);
      forall r, c, k | InGrid(r, c) && r < |was| && c < |was[r]| && |model[r][c]| <= k < |was[r][c]| && k < spaceMaxEntity
        ensures indexMap[r, c].data[k] == was[r][c][k]
      {
        assert |old(model)[r][c]| <= |model[r][c]| && old(indexMap[r, c].data[k]) == was[r][c][k];
        if (r, c) != (row, col) {
          assert indexMap[r, c].data != indexMap[row, col].data;
        }
      }
    }

    /** Every slot of a cell's backing store at or past the cell's end holds
        the value was gives it. */
    ghost predicate StaleKept(was: Grid<int>)
      reads this, indexMap, cells, stores
      requires Shaped()
    {
      forall r, c, k {:trigger was[r][c][k]} ::
        InGrid(r, c) && r < |was| && c < |was[r]| && |model[r][c]| <= k < |was[r][c]| && k < spaceMaxEntity ==>
          indexMap[r, c].data[k] == was[r][c][k]
    }

    /** No cell of g, and no backing store of one, belongs to the index map. */
    ghost predicate Disjoint<T>(g: array2<BComponent<T>>)
      reads this, g, Cells(g)
    {
      forall r, c :: InBounds(g, r, c) ==> g[r, c] as object !in cells && g[r, c].data as object !in stores
    }

    /** Every cell of output gets, in the cell's order, the values of data at
        the indices filed in the same cell of the index map; cells of output
        beyond the grid are left alone. */
    method Partition<T>(data: BComponent<T>, output: array2<BComponent<T>>) returns (result: array2<BComponent<T>>)
      requires Valid() && GridValid(output) && Covers(output) && Disjoint(output)
      requires data.data !in Arrays(output)
      // every cell of output can hold the list of its cell
      requires forall r, c :: InGrid(r, c) ==> |model[r][c]| <= output[r, c].data.Length
      // and every filed index names an element of data
      requires forall r, c, k :: InGrid(r, c) && 0 <= k < |model[r][c]| ==> 0 <= model[r][c][k] < data.data.Length
      modifies Cells(output), Arrays(output)
      ensures result == output && GridValid(output)
      ensures forall r, c :: InGrid(r, c) ==>
                Gathered(output[r, c].data[..], output[r, c].length, data.data[..], model[r][c], old(output[r, c].data[..]))
      ensures forall r, c :: InBounds(output, r, c) && !InGrid(r, c) ==>
                output[r, c].length == old(output[r, c].length) && output[r, c].data[..] == old(output[r, c].data[..])
    {
      ghost var a, was := data.data[..], Backing(output);
      for row := 0 to MaxRowIndex() + 1
        invariant GridValid(output)
        invariant forall r, c {:trigger was[r][c]} :: InGrid(r, c) && r < row ==>
                    Gathered(output[r, c].data[..], output[r, c].length, a, model[r][c], was[r][c])
        invariant forall r, c :: InBounds(output, r, c) && !(InGrid(r, c) && r < row) ==>
                    output[r, c].length == old(output[r, c].length) && output[r, c].data[..] == was[r][c]
      {
        PartitionRow(data, output, row, a, model[row], was[row]);
      }
      result := output;
    }

    /** The middle loop of Partition: every cell of one row is gathered. a,
        lists and was are data, the row's index lists and the row's backing
        stores as the loop found them. */
    method PartitionRow<T>(data: BComponent<T>, output: array2<BComponent<T>>, row: int,
                           ghost a: seq<T>, ghost lists: seq<seq<int>>, ghost was: seq<seq<T>>)
      requires spaceUnit != 0.0 && 0 <= row <= MaxRowIndex() && MaxColIndex() >= -1
      requires Covers(indexMap) && Covers(output) && GridValid(output) && Disjoint(output) && data.data !in Arrays(output)
      requires a == data.data[..] && |lists| > MaxColIndex() && |was| > MaxColIndex()
      requires forall c {:trigger lists[c]} :: 0 <= c <= MaxColIndex() ==>
                 indexMap[row, c] in cells && indexMap[row, c].data in stores && indexMap[row, c].Valid() &&
                 indexMap[row, c].Elements() == lists[c] && output[row, c].data[..] == was[c] &&
                 |lists[c]| <= output[row, c].data.Length
      requires forall c, k :: 0 <= c <= MaxColIndex() && 0 <= k < |lists[c]| ==> 0 <= lists[c][k] < |a|
      modifies Cells(output), Arrays(output)
      ensures GridValid(output)
      ensures forall c :: 0 <= c <= MaxColIndex() ==>
                Gathered(output[row, c].data[..], output[row, c].length, a, lists[c], was[c])
      ensures forall r, c :: InBounds(output, r, c) && !(r == row && c <= MaxColIndex()) ==>
                output[r, c].length == old(output[r, c].length) && output[r, c].data[..] == old(output[r, c].data[..])
    {
      for col := 0 to MaxColIndex() + 1
        invariant GridValid(output)
        invariant forall c {:trigger was[c]} :: 0 <= c < col ==>
                    Gathered(output[row, c].data[..], output[row, c].length, a, lists[c], was[c])
        invariant forall r, c :: InBounds(output, r, c) && !(r == row && c < col) ==>
                    output[r, c].length == old(output[r, c].length) && output[r, c].data[..] == old(output[r, c].data[..])
      {
        assert forall c :: 0 <= c <= MaxColIndex() && c != col ==> output[row, c].data != output[row, col].data;
        GatherCell(indexMap[row, col], data.data, output[row, col], lists[col], was[col]);
      }
    }

    /** Every value of writeFrom goes back to the element its index names:
        cell by cell in row-major order, the k-th value of a cell of writeFrom
        is written to writeTo at the k-th index filed in the same cell of the
        index map. A later write to the same element wins. */
    method Write<T>(writeFrom: array2<BComponent<T>>, writeTo: BComponent<T>)
      requires Valid() && GridValid(writeFrom) && Covers(writeFrom)
      requires writeTo.data !in Arrays(writeFrom) && writeTo.data as object !in stores
      // no cell of writeFrom holds more values than its index list has slots
      requires forall r, c :: InGrid(r, c) ==> writeFrom[r, c].length <= spaceMaxEntity
      // and every index read names an element of writeTo
      requires forall r, c, k :: InGrid(r, c) && 0 <= k < writeFrom[r, c].length ==>
                 0 <= indexMap[r, c].data[k] < writeTo.data.Length
      modifies writeTo.data
      ensures writeTo.data[..] == Apply(old(writeTo.data[..]), Flatten(old(Pending(Backing(indexMap), Contents(writeFrom)))))
    {
      PendingTargets(writeFrom, writeTo.data.Length);
      PendingCells(Backing(indexMap), Contents(writeFrom), Pending(Backing(indexMap), Contents(writeFrom)));
      WriteRows(writeFrom, writeTo, Backing(indexMap), Contents(writeFrom), Pending(Backing(indexMap), Contents(writeFrom)));
    }

    /** For a grid whose cells are exactly as long as their index lists, the
        k-th pending write of cell (r, c) carries the cell's k-th value to the
        k-th agent filed there. */
    lemma PendingEntries<T>(writeFrom: array2<BComponent<T>>)
      requires Valid() && GridValid(writeFrom) && Covers(writeFrom)
      requires forall r, c :: InGrid(r, c) ==> writeFrom[r, c].length == |model[r][c]|
      ensures var w := Pending(Backing(indexMap), Contents(writeFrom));
        |w| == MaxRowIndex() + 1 && (forall r :: 0 <= r < |w| ==> |w[r]| == MaxColIndex() + 1) &&
        forall r, c, k :: InGrid(r, c) && 0 <= k < |w[r][c]| ==>
          k < |model[r][c]| && w[r][c][k] == (model[r][c][k], writeFrom[r, c].data[k])
    {
      var w := Pending(Backing(indexMap), Contents(writeFrom));
      forall r, c | InGrid(r, c)
        ensures |w[r][c]| == |model[r][c]|
        ensures forall k :: 0 <= k < |w[r][c]| ==> w[r][c][k] == (model[r][c][k], writeFrom[r, c].data[k])
      {
        assert w[r][c] == Zip(indexMap[r, c].data[..writeFrom[r, c].length], writeFrom[r, c].Elements());
      }
    }

    /** The outer loop of Write. idx and vals are the index lists and the
        values as Write found them. */
    method WriteRows<T>(writeFrom: array2<BComponent<T>>, writeTo: BComponent<T>, ghost idx: Grid<int>, ghost vals: Grid<T>, ghost w: Grid<Entry<T>>)
      requires spaceUnit != 0.0 && Covers(indexMap) && Covers(writeFrom)
      requires |idx| == MaxRowIndex() + 1 && forall r :: 0 <= r < |idx| ==> |idx[r]| == MaxColIndex() + 1
      requires |idx| <= |vals| && forall r :: 0 <= r < |idx| ==> |vals[r]| > MaxColIndex()
      requires |w| == |idx| && forall r :: 0 <= r < |w| ==> |w[r]| == |idx[r]|
      requires forall r, c {:trigger idx[r][c]} :: InGrid(r, c) ==>
                 writeFrom[r, c].Valid() && writeTo.data != writeFrom[r, c].data && writeTo.data != indexMap[r, c].data &&
                 indexMap[r, c].data[..] == idx[r][c] && writeFrom[r, c].Elements() == vals[r][c] &&
                 |vals[r][c]| <= |idx[r][c]| && w[r][c] == Zip(idx[r][c][..|vals[r][c]|], vals[r][c])
      requires Targets(w, writeTo.data.Length)
      modifies writeTo.data
      ensures writeTo.data[..] == Apply(old(writeTo.data[..]), Flatten(w))
    {
      ghost var a, done := writeTo.data[..], [];
      for row := 0 to MaxRowIndex() + 1
        invariant done == FlattenRows(w, row)
        invariant writeTo.data[..] == Apply(a, done)
      {
        ghost var next := FlattenRow(w[row], |w[row]|);
        WriteRow(writeFrom, writeTo, row, idx, vals, w);
        ApplyConcat(a, done, next);
        done := done + next;
      }
    }

    /** Under Write's preconditions, every pending write names an element of
        writeTo. */
    lemma PendingTargets<T>(writeFrom: array2<BComponent<T>>, n: int)
      requires Shaped() && GridValid(writeFrom) && Covers(writeFrom)
      requires forall r, c :: InGrid(r, c) ==> writeFrom[r, c].length <= spaceMaxEntity
      requires forall r, c, k :: InGrid(r, c) && 0 <= k < writeFrom[r, c].length ==> 0 <= indexMap[r, c].data[k] < n
      ensures Targets(Pending(Backing(indexMap), Contents(writeFrom)), n)
    {
      var w: Grid<Entry<T>> := Pending(Backing(indexMap), Contents(writeFrom));
      forall r: int, c: int, k: int | 0 <= r < |w| && 0 <= c < |w[r]| && 0 <= k < |w[r][c]|
        ensures 0 <= w[r][c][k].0 < n
      {
        assert w[r][c][k].0 == indexMap[r, c].data[k];
      }
    }

    /** The middle loop of Write: the cells of one row are written back.
        idx and vals are the index lists and the values as Write found them. */
    method WriteRow<T>(writeFrom: array2<BComponent<T>>, writeTo: BComponent<T>, row: int,
                       ghost idx: Grid<int>, ghost vals: Grid<T>, ghost w: Grid<Entry<T>>)
      requires spaceUnit != 0.0 && 0 <= row <= MaxRowIndex() && Covers(indexMap) && Covers(writeFrom)
      requires |idx| == MaxRowIndex() + 1 && |idx[row]| == MaxColIndex() + 1
      requires row < |vals| && |vals[row]| > MaxColIndex()
      requires row < |w| && |w[row]| == MaxColIndex() + 1
      requires forall c {:trigger idx[row][c]} :: 0 <= c <= MaxColIndex() ==>
                 writeFrom[row, c].Valid() && writeTo.data != writeFrom[row, c].data && writeTo.data != indexMap[row, c].data &&
                 indexMap[row, c].data[..] == idx[row][c] && writeFrom[row, c].Elements() == vals[row][c] &&
                 |vals[row][c]| <= |idx[row][c]| && w[row][c] == Zip(idx[row][c][..|vals[row][c]|], vals[row][c])
      requires forall c, k :: 0 <= c <= MaxColIndex() && 0 <= k < |w[row][c]| ==> 0 <= w[row][c][k].0 < writeTo.data.Length
      modifies writeTo.data
      ensures writeTo.data[..] == Apply(old(writeTo.data[..]), FlattenRow(w[row], |w[row]|))
    {
      ghost var a := writeTo.data[..];
      for col := 0 to MaxColIndex() + 1
        invariant writeTo.data[..] == Apply(a, FlattenRow(w[row], col))
      {
        WriteCell(writeFrom, writeTo, row, col, idx[row][col], vals[row][col], a, FlattenRow(w[row], col), w[row][col]);
      }
    }

    /** The inner loop of Write: the values of one cell are written back
        through the indices filed in the same cell of the index map. */
    method WriteCell<T>(writeFrom: array2<BComponent<T>>, writeTo: BComponent<T>, row: int, col: int,
                        ghost list: seq<int>, ghost values: seq<T>,
                        ghost a: seq<T>, ghost done: seq<Entry<T>>, ghost cw: seq<Entry<T>>)
      requires spaceUnit != 0.0 && InGrid(row, col) && Covers(indexMap) && Covers(writeFrom)
      requires writeFrom[row, col].Valid() && writeTo.data != writeFrom[row, col].data && writeTo.data != indexMap[row, col].data
      requires indexMap[row, col].data[..] == list && writeFrom[row, col].Elements() == values
      requires |values| <= |list| && cw == Zip(list[..|values|], values)
      requires forall k :: 0 <= k < |cw| ==> 0 <= cw[k].0 < writeTo.data.Length
      requires writeTo.data[..] == Apply(a, done)
      modifies writeTo.data
      ensures writeTo.data[..] == Apply(a, done + cw)
    {
      assert forall k :: 0 <= k < |values| ==> cw[k].0 == list[k];
      ScatterCell(indexMap[row, col], writeFrom[row, col], writeTo.data);
      ApplyConcat(a, done, cw);
    }

    /** Gives every cell of component the length of the same cell of the
        index map; cells beyond the grid keep theirs. */
    method Resize<T>(component: array2<BComponent<T>>)
      requires Valid() && GridValid(component) && Covers(component) && Disjoint(component)
      requires forall r, c :: InGrid(r, c) ==> |model[r][c]| <= component[r, c].data.Length
      modifies Cells(component)
      ensures GridValid(component)
      ensures forall r, c :: InGrid(r, c) ==> component[r, c].length == |model[r][c]|
      ensures forall r, c :: InBounds(component, r, c) && !InGrid(r, c) ==>
                component[r, c].length == old(component[r, c].length)
    {
      for row := 0 to MaxRowIndex() + 1
        invariant GridValid(component)
        invariant forall r, c :: InGrid(r, c) && r < row ==> component[r, c].length == |model[r][c]|
        invariant forall r, c :: InBounds(component, r, c) && !(InGrid(r, c) && r < row) ==>
                    component[r, c].length == old(component[r, c].length)
      {
        ResizeRow(component, row);
      }
    }

    /** The inner loop of Resize: every cell of one row is resized. */
    method ResizeRow<T>(component: array2<BComponent<T>>, row: int)
      requires Valid() && GridValid(component) && Covers(component) && Disjoint(component) && 0 <= row <= MaxRowIndex()
      requires forall c :: 0 <= c <= MaxColIndex() ==> |model[row][c]| <= component[row, c].data.Length
      modifies Cells(component)
      ensures GridValid(component)
      ensures forall c :: 0 <= c <= MaxColIndex() ==> component[row, c].length == |model[row][c]|
      ensures forall r, c :: InBounds(component, r, c) && !(r == row && c <= MaxColIndex()) ==>
                component[r, c].length == old(component[r, c].length)
    {
      for col := 0 to MaxColIndex() + 1
        invariant GridValid(component)
        invariant forall c :: 0 <= c < col ==> component[row, c].length == |model[row][c]|
        invariant forall r, c :: InBounds(component, r, c) && !(r == row && c < col) ==>
                    component[r, c].length == old(component[r, c].length)
      {
        component[row, col].length := indexMap[row, col].length;
      }
    }

    /** Empties every cell; the backing stores keep their stale values. */
    method ResetIndex() returns (map_: array2<BComponent<int>>)
      requires Valid()
      modifies this, cells
      ensures Valid() && map_ == indexMap
      ensures model == EmptyGrid(MaxRowIndex() + 1, MaxColIndex() + 1)
      ensures Flatten(model) == []
    {
      for row := 0 to MaxRowIndex() + 1
        invariant Valid()
        invariant forall r, c :: InGrid(r, c) && r < row ==> model[r][c] == []
      {
        for col := 0 to MaxColIndex() + 1
          invariant Valid()
          invariant forall r, c :: InGrid(r, c) && (r < row || (r == row && c < col)) ==> model[r][c] == []
        {
          Clear(row, col);
        }
      }
      EmptyCells(model, MaxRowIndex() + 1, MaxColIndex() + 1);
      FlattenEmpty(model, |model|);
      map_ := indexMap;
    }

    /** The body of ResetIndex's loops: cell (row, col) is emptied. */
    method Clear(row: int, col: int)
      requires Valid() && InGrid(row, col)
      modifies this, cells
      ensures Valid() && model == old(model)[row := old(model)[row][col := []]]
    {
      indexMap[row, col].length := 0;
      model := model[row := model[row][col := []]];
    }
  }

  /** Truncating extent / unit gives the last index whose cell starts within
      the extent. */
  lemma LastIndexCovers(extent: real, unit: real)
    requires unit != 0.0
    ensures unit > 0.0 && extent >= 0.0 ==>
              var r := Trunc(extent / unit);
              0 <= r && r as real * unit <= extent < (r + 1) as real * unit
  {
    if unit > 0.0 && extent >= 0.0 {
      var q := extent / unit;
      var r := Trunc(q);
      assert 0.0 <= q by {
        if q < 0.0 {
          MulLt(q, 0.0, unit);
          DivMul(extent, unit);
        }
      }
      assert r as real <= q < r as real + 1.0;
      DivMul(extent, unit);
      MulLe(r as real, q, unit);
      MulLt(q, r as real + 1.0, unit);
      assert (r + 1) as real == r as real + 1.0;
      assert q * unit == extent;
      assert q * unit < (r as real + 1.0) * unit;
      assert extent < (r + 1) as real * unit;
    }
  }
}
