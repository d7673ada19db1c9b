/** Value-level specification of the uniform grid: which agents each cell
    holds after indexing (buckets), the grid read in row-major order, and the
    effect of scattering cell values back to agent slots as a sequence of
    single-slot writes performed in order. */
module PartitionSpec {

  /** rows x columns x the values held by one cell */
  type Grid<T> = seq<seq<seq<T>>>

  /** A write of a value into one agent slot. */
  type Entry<T> = (int, T)

  // ---------------------------------------------------------------------------
  // Buckets

  /** The agents among the first n whose cell is `cell`, in the order
      UpdateIndex appends them. */
  function Bucket(cells: seq<(int, int)>, cell: (int, int), n: nat): seq<int>
    requires n <= |cells|
  {
    if n == 0 then []
    else Bucket(cells, cell, n - 1) + (if cells[n - 1] == cell then [n - 1] else [])
  }

  /** A bucket holds exactly the agents below n that lie in its cell, each once,
      in ascending order. */
  lemma {:induction false} BucketMembers(cells: seq<(int, int)>, cell: (int, int), n: nat)
    requires n <= |cells|
    ensures forall k :: 0 <= k < |Bucket(cells, cell, n)| ==>
              0 <= Bucket(cells, cell, n)[k] < n && cells[Bucket(cells, cell, n)[k]] == cell
    ensures forall i :: 0 <= i < n && cells[i] == cell ==> i in Bucket(cells, cell, n)
    ensures forall s, t :: 0 <= s < t < |Bucket(cells, cell, n)| ==>
              Bucket(cells, cell, n)[s] < Bucket(cells, cell, n)[t]
  {
    if n > 0 {
      BucketMembers(cells, cell, n - 1);
    }
  }

  /** A cell none of the first n agents lies in gets no agent. */
  lemma {:induction false} BucketAbsent(cells: seq<(int, int)>, cell: (int, int), n: nat)
    requires n <= |cells|
    requires forall i :: 0 <= i < n ==> cells[i] != cell
    ensures Bucket(cells, cell, n) == []
  {
    if n > 0 {
      BucketAbsent(cells, cell, n - 1);
    }
  }

  /** An agent of the cell that is still to come has a slot left for it. */
  lemma {:induction false} BucketGrows(cells: seq<(int, int)>, cell: (int, int), i: nat, n: nat)
    requires i < n <= |cells| && cells[i] == cell
    ensures |Bucket(cells, cell, i)| < |Bucket(cells, cell, n)|
  {
    if n > i + 1 {
      BucketGrows(cells, cell, i, n - 1);
    }
  }

  /** `before` with, at the end of every cell, the agents among the first n
      that lie in it. */
  function Filed(before: Grid<int>, cells: seq<(int, int)>, n: nat): Grid<int>
    requires n <= |cells|
  {
    seq(|before|, r requires 0 <= r < |before| =>
      seq(|before[r]|, c requires 0 <= c < |before[r]| => before[r][c] + Bucket(cells, (r, c), n)))
  }

  /** Filing agent i is appending it to its own cell. */
  lemma FiledStep(before: Grid<int>, cells: seq<(int, int)>, i: nat)
    requires i < |cells|
    requires 0 <= cells[i].0 < |before| && 0 <= cells[i].1 < |before[cells[i].0]|
    ensures Filed(before, cells, i + 1) == Append(Filed(before, cells, i), cells[i].0, cells[i].1, i)
  {
    var next := Filed(before, cells, i + 1);
    var appended := Append(Filed(before, cells, i), cells[i].0, cells[i].1, i);
    forall r | 0 <= r < |before|
      ensures next[r] == appended[r]
    {
      forall c | 0 <= c < |before[r]|
        ensures next[r][c] == appended[r][c]
      {
        assert appended[r][c] == Filed(before, cells, i)[r][c] + if cells[i] == (r, c) then [i] else [];
      }
    }
  }

  /** Filing no agent changes nothing. */
  lemma FiledNone(before: Grid<int>, cells: seq<(int, int)>)
    ensures Filed(before, cells, 0) == before
  {
    var g := Filed(before, cells, 0);
    forall r | 0 <= r < |before|
      ensures g[r] == before[r]
    {
      forall c | 0 <= c < |before[r]|
        ensures g[r][c] == before[r][c]
      {
        assert g[r][c] == before[r][c] + [];
      }
    }
  }

  /** Every one of the first n agents lies in a cell of the grid. */
  ghost predicate AllInside(before: Grid<int>, cells: seq<(int, int)>, n: nat) {
    n <= |cells| &&
    forall i :: 0 <= i < n ==> 0 <= cells[i].0 < |before| && 0 <= cells[i].1 < |before[cells[i].0]|
  }

  /** The grid after appending the first n agents one by one, each to its
      cell: what UpdateIndex's loop computes. */
  function FileEach(before: Grid<int>, cells: seq<(int, int)>, n: nat): (g: Grid<int>)
    requires AllInside(before, cells, n)
    ensures |g| == |before| && forall r {:trigger g[r]} :: 0 <= r < |g| ==> |g[r]| == |before[r]|
  {
    if n == 0 then before
    else
      var i := n - 1;
      assert AllInside(before, cells, i);
      Append(FileEach(before, cells, i), cells[i].0, cells[i].1, i)
  }

  /** Appending one by one files every agent of a cell after the ones already
      there, in index order. */
  lemma {:induction false} FileEachIsFiled(before: Grid<int>, cells: seq<(int, int)>, n: nat)
    requires AllInside(before, cells, n)
    ensures FileEach(before, cells, n) == Filed(before, cells, n)
  {
    if n == 0 {
      FiledNone(before, cells);
    } else {
      assert AllInside(before, cells, n - 1);
      FileEachIsFiled(before, cells, n - 1);
      FiledStep(before, cells, n - 1);
    }
  }

  /** Filing the first n agents adds every one of them exactly once: the total
      count grows by n and nobody is lost or duplicated. */
  lemma {:induction false} FileEachOnce(before: Grid<int>, cells: seq<(int, int)>, n: nat)
    requires AllInside(before, cells, n)
    ensures multiset(Flatten(FileEach(before, cells, n))) == multiset(Flatten(before)) + AgentsBelow(n)
  {
    if n > 0 {
      var i := n - 1;
      assert AllInside(before, cells, i);
      FileEachOnce(before, cells, i);
      FlattenGrow(FileEach(before, cells, i), cells[i].0, cells[i].1, i);
    }
  }

  /** Every cell of before has room for the agents among the first n that
      belong to it. */
  ghost predicate RoomFor(before: Grid<int>, cells: seq<(int, int)>, n: nat, capacity: nat)
    requires n <= |cells|
  {
    forall r, c {:trigger Bucket(cells, (r, c), n)} :: 0 <= r < |before| && 0 <= c < |before[r]| ==>
      |before[r][c]| + |Bucket(cells, (r, c), n)| <= capacity
  }

  /** While filing, the cell of the next agent still has a free slot. */
  lemma FileEachRoom(before: Grid<int>, cells: seq<(int, int)>, i: nat, n: nat, capacity: nat)
    requires i < n && AllInside(before, cells, n) && RoomFor(before, cells, n, capacity)
    ensures |FileEach(before, cells, i)[cells[i].0][cells[i].1]| < capacity
  {
    assert AllInside(before, cells, i);
    FileEachIsFiled(before, cells, i);
    BucketGrows(cells, cells[i], i, n);
  }

  /** The multiset {0, 1, ..., n-1}: every agent index once. */
  function AgentsBelow(n: nat): multiset<int> {
    if n == 0 then multiset{} else AgentsBelow(n - 1) + multiset{n - 1}
  }

  lemma {:induction false} AgentsBelowOnce(n: nat, i: int)
    ensures AgentsBelow(n)[i] == if 0 <= i < n then 1 else 0
  {
    if n > 0 {
      AgentsBelowOnce(n - 1, i);
    }
  }

  /** A grid of rows x cols empty cells. */
  function EmptyGrid<T>(rows: nat, cols: nat): Grid<T> {
    seq(rows, _ => seq(cols, _ => []))
  }

  /** A rows x cols grid whose every cell is empty is the empty grid. */
  lemma EmptyCells<T>(g: Grid<T>, rows: nat, cols: nat)
    requires |g| == rows && forall r :: 0 <= r < rows ==> |g[r]| == cols
    requires forall r, c :: 0 <= r < rows && 0 <= c < cols ==> g[r][c] == []
    ensures g == EmptyGrid(rows, cols)
  {
    forall r | 0 <= r < rows
      ensures g[r] == EmptyGrid<T>(rows, cols)[r]
    {
      assert forall c :: 0 <= c < cols ==> g[r][c] == EmptyGrid<T>(rows, cols)[r][c];
    }
  }

  /** Filing into an empty grid leaves each cell holding exactly its bucket. */
  lemma FiledFromEmpty(rows: nat, cols: nat, cells: seq<(int, int)>, n: nat)
    requires n <= |cells|
    ensures forall r, c :: 0 <= r < rows && 0 <= c < cols ==>
              Filed(EmptyGrid(rows, cols), cells, n)[r][c] == Bucket(cells, (r, c), n)
  {
    forall r, c | 0 <= r < rows && 0 <= c < cols
      ensures Filed(EmptyGrid(rows, cols), cells, n)[r][c] == Bucket(cells, (r, c), n)
    {
      assert EmptyGrid<int>(rows, cols)[r][c] == [];
      assert [] + Bucket(cells, (r, c), n) == Bucket(cells, (r, c), n);
    }
  }

  /** No agent is filed twice anywhere in the grid. */
  ghost predicate Unique(g: Grid<int>) {
    forall r, c, k, r', c', k' ::
      0 <= r < |g| && 0 <= c < |g[r]| && 0 <= k < |g[r][c]| &&
      0 <= r' < |g| && 0 <= c' < |g[r']| && 0 <= k' < |g[r'][c']| && (r, c, k) != (r', c', k')
      ==> g[r][c][k] != g[r'][c'][k']
  }

  /** Filing into an empty grid files every agent at most once. */
  lemma FiledFromEmptyUnique(rows: nat, cols: nat, cells: seq<(int, int)>, n: nat)
    requires n <= |cells|
    ensures Unique(Filed(EmptyGrid(rows, cols), cells, n))
  {
    var g := Filed(EmptyGrid(rows, cols), cells, n);
    FiledFromEmpty(rows, cols, cells, n);
    forall r, c, k, r', c', k' |
      0 <= r < |g| && 0 <= c < |g[r]| && 0 <= k < |g[r][c]| &&
      0 <= r' < |g| && 0 <= c' < |g[r']| && 0 <= k' < |g[r'][c']| &&
      (r, c, k) != (r', c', k')
      ensures g[r][c][k] != g[r'][c'][k']
    {
      BucketsApart(cells, (r, c), (r', c'), n, k, k');
    }
  }

  /** Two different positions in the buckets of the first n agents hold two
      different agents. */
  lemma BucketsApart(cells: seq<(int, int)>, a: (int, int), b: (int, int), n: nat, k: int, k': int)
    requires n <= |cells| && 0 <= k < |Bucket(cells, a, n)| && 0 <= k' < |Bucket(cells, b, n)|
    requires (a, k) != (b, k')
    ensures Bucket(cells, a, n)[k] != Bucket(cells, b, n)[k']
  {
    BucketMembers(cells, a, n);
    BucketMembers(cells, b, n);
    if a == b {
      assert k < k' || k' < k;
    }
  }

  // ---------------------------------------------------------------------------
  // Row-major reading of a grid

  function FlattenRow<T>(row: seq<seq<T>>, n: nat): seq<T>
    requires n <= |row|
  {
    if n == 0 then [] else FlattenRow(row, n - 1) + row[n - 1]
  }

  function FlattenRows<T>(g: Grid<T>, n: nat): seq<T>
    requires n <= |g|
  {
    if n == 0 then [] else FlattenRows(g, n - 1) + FlattenRow(g[n - 1], |g[n - 1]|)
  }

  /** All the values of the grid, cell by cell in row-major order. */
  function Flatten<T>(g: Grid<T>): seq<T> {
    FlattenRows(g, |g|)
  }

  /** The grid with x appended to cell (r, c). */
  function Append<T>(g: Grid<T>, r: nat, c: nat, x: T): Grid<T>
    requires r < |g| && c < |g[r]|
  {
    g[r := g[r][c := g[r][c] + [x]]]
  }

  /** Appending x to one cell of a row adds x to its row-major reading. */
  lemma {:induction false} FlattenRowGrow(row: seq<seq<int>>, c0: nat, x: int, n: nat)
    requires c0 < |row| && n <= |row|
    ensures multiset(FlattenRow(row[c0 := row[c0] + [x]], n)) ==
              multiset(FlattenRow(row, n)) + if c0 < n then multiset{x} else multiset{}
  {
    if n > 0 {
      var grown := row[c0 := row[c0] + [x]];
      FlattenRowGrow(row, c0, x, n - 1);
      if n - 1 == c0 {
        GrowConcat(FlattenRow(row, n - 1), row[n - 1], FlattenRow(grown, n - 1), grown[n - 1], multiset{}, multiset{x});
      } else {
        GrowConcat(FlattenRow(row, n - 1), row[n - 1], FlattenRow(grown, n - 1), grown[n - 1],
                   if c0 < n - 1 then multiset{x} else multiset{}, multiset{});
      }
    }
  }

  /** Multisets add up across a concatenation. */
  lemma GrowConcat<T>(a: seq<T>, b: seq<T>, a2: seq<T>, b2: seq<T>, ma: multiset<T>, mb: multiset<T>)
    requires multiset(a2) == multiset(a) + ma && multiset(b2) == multiset(b) + mb
    ensures multiset(a2 + b2) == multiset(a + b) + ma + mb
  {
  }

  /** Appending x to one cell of a grid adds x to its row-major reading. */
  lemma {:induction false} FlattenRowsGrow(g: Grid<int>, r0: nat, c0: nat, x: int, n: nat)
    requires r0 < |g| && c0 < |g[r0]| && n <= |g|
    ensures multiset(FlattenRows(Append(g, r0, c0, x), n)) ==
              multiset(FlattenRows(g, n)) + if r0 < n then multiset{x} else multiset{}
  {
    if n > 0 {
      var h := Append(g, r0, c0, x);
      FlattenRowsGrow(g, r0, c0, x, n - 1);
      if n - 1 == r0 {
        FlattenRowGrow(g[r0], c0, x, |g[r0]|);
      } else {
        assert h[n - 1] == g[n - 1];
      }
    }
  }

  /** The whole row-major reading gains exactly x. */
  lemma FlattenGrow(g: Grid<int>, r0: nat, c0: nat, x: int)
    requires r0 < |g| && c0 < |g[r0]|
    ensures multiset(Flatten(Append(g, r0, c0, x))) == multiset(Flatten(g)) + multiset{x}
  {
    FlattenRowsGrow(g, r0, c0, x, |g|);
  }

  /** A grid of empty cells reads as nothing. */
  lemma {:induction false} FlattenEmpty<T>(g: Grid<T>, n: nat)
    requires n <= |g|
    requires forall r, c :: 0 <= r < |g| && 0 <= c < |g[r]| ==> g[r][c] == []
    ensures FlattenRows(g, n) == []
  {
    if n > 0 {
      FlattenEmpty(g, n - 1);
      FlattenRowEmpty(g[n - 1], |g[n - 1]|);
    }
  }

  lemma {:induction false} FlattenRowEmpty<T>(row: seq<seq<T>>, n: nat)
    requires n <= |row|
    requires forall c :: 0 <= c < |row| ==> row[c] == []
    ensures FlattenRow(row, n) == []
  {
    if n > 0 {
      FlattenRowEmpty(row, n - 1);
    }
  }

  /** Where the k-th value of cell (r, c) sits in the row-major reading. */
  lemma {:induction false} FlattenRowPosition<T>(row: seq<seq<T>>, n: nat, c: nat, k: nat) returns (t: nat)
    requires c < n <= |row| && k < |row[c]|
    ensures t < |FlattenRow(row, n)| && FlattenRow(row, n)[t] == row[c][k]
  {
    if c == n - 1 {
      t := |FlattenRow(row, n - 1)| + k;
    } else {
      t := FlattenRowPosition(row, n - 1, c, k);
    }
  }

  lemma {:induction false} FlattenRowsPosition<T>(g: Grid<T>, n: nat, r: nat, c: nat, k: nat) returns (t: nat)
    requires r < n <= |g| && c < |g[r]| && k < |g[r][c]|
    ensures t < |FlattenRows(g, n)| && FlattenRows(g, n)[t] == g[r][c][k]
  {
    if r == n - 1 {
      var u := FlattenRowPosition(g[r], |g[r]|, c, k);
      t := |FlattenRows(g, n - 1)| + u;
    } else {
      t := FlattenRowsPosition(g, n - 1, r, c, k);
    }
  }

  // ---------------------------------------------------------------------------
  // Gather and scatter

  /** The writes a cell performs: its k-th value into slot idx[k]. */
  function Zip<T>(idx: seq<int>, vals: seq<T>): seq<Entry<T>>
    requires |idx| == |vals|
  {
    seq(|vals|, k requires 0 <= k < |vals| => (idx[k], vals[k]))
  }

  /** The writes of every cell of idx: its k-th value goes to the agent its
      k-th index names. A cell whose values outnumber its indices, or which
      has no values, writes nothing. */
  function Pending<T>(idx: Grid<int>, vals: Grid<T>): (w: Grid<Entry<T>>)
    ensures |w| == |idx|
    ensures forall r :: 0 <= r < |w| ==> |w[r]| == |idx[r]|
  {
    seq(|idx|, r requires 0 <= r < |idx| =>
      seq(|idx[r]|, c requires 0 <= c < |idx[r]| =>
        if r < |vals| && c < |vals[r]| && |vals[r][c]| <= |idx[r][c]|
        then Zip(idx[r][c][..|vals[r][c]|], vals[r][c])
        else []))
  }

  /** Pending cell by cell: each cell's values zipped with as many of its
      indices. */
  lemma PendingCells<T>(idx: Grid<int>, vals: Grid<T>, w: Grid<Entry<T>>)
    requires w == Pending(idx, vals)
    ensures forall r, c :: 0 <= r < |w| && 0 <= c < |w[r]| && r < |vals| && c < |vals[r]| && |vals[r][c]| <= |idx[r][c]| ==>
              w[r][c] == Zip(idx[r][c][..|vals[r][c]|], vals[r][c])
  {
  }

  /** Every write of the grid goes to one of n slots. */
  ghost predicate Targets<T>(w: Grid<Entry<T>>, n: int) {
    forall r, c, k :: 0 <= r < |w| && 0 <= c < |w[r]| && 0 <= k < |w[r][c]| ==> 0 <= w[r][c][k].0 < n
  }

  /** The slots after performing the writes in order; a write outside the
      slots does nothing. */
  function Apply<T>(a: seq<T>, ws: seq<Entry<T>>): (r: seq<T>)
    ensures |r| == |a|
  {
    if ws == [] then a
    else
      var b := Apply(a, ws[..|ws| - 1]);
      var w := ws[|ws| - 1];
      if 0 <= w.0 < |b| then b[w.0 := w.1] else b
  }

  lemma {:induction false} ApplyConcat<T>(a: seq<T>, xs: seq<Entry<T>>, ys: seq<Entry<T>>)
    ensures Apply(a, xs + ys) == Apply(Apply(a, xs), ys)
  {
    if ys != [] {
      var zs := xs + ys;
      assert zs[..|zs| - 1] == xs + ys[..|ys| - 1];
      ApplyConcat(a, xs, ys[..|ys| - 1]);
    } else {
      assert xs + ys == xs;
    }
  }

  lemma ApplySnoc<T>(a: seq<T>, ws: seq<Entry<T>>, w: Entry<T>)
    ensures Apply(a, ws + [w]) == if 0 <= w.0 < |a| then Apply(a, ws)[w.0 := w.1] else Apply(a, ws)
  {
    assert (ws + [w])[..|ws|] == ws;
  }

  lemma ZipSnoc<T>(idx: seq<int>, vals: seq<T>, i: nat)
    requires i < |idx| && i < |vals|
    ensures Zip(idx[..i + 1], vals[..i + 1]) == Zip(idx[..i], vals[..i]) + [(idx[i], vals[i])]
  {
  }

  /** Some write of ws goes to slot j. */
  ghost predicate Hits<T>(ws: seq<Entry<T>>, j: int) {
    exists t :: 0 <= t < |ws| && ws[t].0 == j
  }

  /** Every write of ws into a slot of a puts there the value b has. */
  ghost predicate Agrees<T>(ws: seq<Entry<T>>, a: seq<T>, b: seq<T>) {
    |a| == |b| && forall t :: 0 <= t < |ws| && 0 <= ws[t].0 < |a| ==> ws[t].1 == b[ws[t].0]
  }

  /** Writes that all agree with b leave exactly the slots they hit holding
      b's values, and every other slot as it was. */
  lemma {:induction false} ApplyAgreeing<T>(a: seq<T>, b: seq<T>, ws: seq<Entry<T>>)
    requires Agrees(ws, a, b)
    ensures forall j :: 0 <= j < |a| ==> Apply(a, ws)[j] == if Hits(ws, j) then b[j] else a[j]
  {
    if ws != [] {
      var init := ws[..|ws| - 1];
      var w := ws[|ws| - 1];
      assert Agrees(init, a, b) by {
        forall t | 0 <= t < |init| && 0 <= init[t].0 < |a|
          ensures init[t].1 == b[init[t].0]
        {
          assert init[t] == ws[t];
        }
      }
      ApplyAgreeing(a, b, init);
      forall j | 0 <= j < |a|
        ensures Apply(a, ws)[j] == if Hits(ws, j) then b[j] else a[j]
      {
        if Hits(init, j) {
          var t :| 0 <= t < |init| && init[t].0 == j;
          assert ws[t] == init[t];
        } else if w.0 == j {
          assert ws[|ws| - 1].0 == j;
        } else {
          forall t | 0 <= t < |ws|
            ensures ws[t].0 != j
          {
            if t < |init| {
              assert init[t] == ws[t];
            }
          }
        }
      }
    }
  }

  /** Writing back values that are already there changes nothing. */
  lemma ApplyUnchanged<T>(a: seq<T>, ws: seq<Entry<T>>)
    requires Agrees(ws, a, a)
    ensures Apply(a, ws) == a
  {
    ApplyAgreeing(a, a, ws);
  }

  lemma AgreesConcat<T>(xs: seq<Entry<T>>, ys: seq<Entry<T>>, a: seq<T>, b: seq<T>)
    requires Agrees(xs, a, b) && Agrees(ys, a, b)
    ensures Agrees(xs + ys, a, b)
  {
    forall t | 0 <= t < |xs + ys| && 0 <= (xs + ys)[t].0 < |a|
      ensures (xs + ys)[t].1 == b[(xs + ys)[t].0]
    {
      if t >= |xs| {
        assert (xs + ys)[t] == ys[t - |xs|];
      }
    }
  }

  /** Every write in the grid's cells agrees with b. */
  ghost predicate GridAgrees<T>(w: Grid<Entry<T>>, a: seq<T>, b: seq<T>) {
    forall r, c :: 0 <= r < |w| && 0 <= c < |w[r]| ==> Agrees(w[r][c], a, b)
  }

  lemma {:induction false} FlattenRowAgrees<T>(row: seq<seq<Entry<T>>>, n: nat, a: seq<T>, b: seq<T>)
    requires n <= |row| && |a| == |b|
    requires forall c :: 0 <= c < |row| ==> Agrees(row[c], a, b)
    ensures Agrees(FlattenRow(row, n), a, b)
  {
    if n > 0 {
      FlattenRowAgrees(row, n - 1, a, b);
      AgreesConcat(FlattenRow(row, n - 1), row[n - 1], a, b);
    }
  }

  lemma {:induction false} FlattenAgrees<T>(w: Grid<Entry<T>>, n: nat, a: seq<T>, b: seq<T>)
    requires n <= |w| && |a| == |b|
    requires GridAgrees(w, a, b)
    ensures Agrees(FlattenRows(w, n), a, b)
  {
    if n > 0 {
      FlattenAgrees(w, n - 1, a, b);
      FlattenRowAgrees(w[n - 1], |w[n - 1]|, a, b);
      AgreesConcat(FlattenRows(w, n - 1), FlattenRow(w[n - 1], |w[n - 1]|), a, b);
    }
  }

  /** Scattering back what was gathered from a, through the same index lists,
      leaves a as it was: the gather/scatter round trip. */
  lemma ScatterGathered<T>(a: seq<T>, w: Grid<Entry<T>>)
    requires forall r, c, k :: 0 <= r < |w| && 0 <= c < |w[r]| && 0 <= k < |w[r][c]| ==>
               0 <= w[r][c][k].0 < |a| && w[r][c][k].1 == a[w[r][c][k].0]
    ensures Apply(a, Flatten(w)) == a
  {
    FlattenAgrees(w, |w|, a, a);
    ApplyUnchanged(a, Flatten(w));
  }

  /** If one gathered value, the k0-th of cell (r0, c0), is replaced by v and
      its agent j0 is listed nowhere else, scattering changes slot j0 to v and
      no other slot. */
  lemma ScatterOneEdit<T>(a: seq<T>, w: Grid<Entry<T>>, r0: nat, c0: nat, k0: nat, v: T)
    requires r0 < |w| && c0 < |w[r0]| && k0 < |w[r0][c0]|
    requires 0 <= w[r0][c0][k0].0 < |a| && w[r0][c0][k0].1 == v
    requires forall r, c, k :: 0 <= r < |w| && 0 <= c < |w[r]| && 0 <= k < |w[r][c]| && (r, c, k) != (r0, c0, k0) ==>
               0 <= w[r][c][k].0 < |a| && w[r][c][k].0 != w[r0][c0][k0].0 && w[r][c][k].1 == a[w[r][c][k].0]
    ensures Apply(a, Flatten(w)) == a[w[r0][c0][k0].0 := v]
  {
    var j0 := w[r0][c0][k0].0;
    var b := a[j0 := v];
    forall r, c | 0 <= r < |w| && 0 <= c < |w[r]|
      ensures Agrees(w[r][c], a, b)
    {
      forall k | 0 <= k < |w[r][c]| && 0 <= w[r][c][k].0 < |a|
        ensures w[r][c][k].1 == b[w[r][c][k].0]
      {
        if (r, c, k) != (r0, c0, k0) {
          assert w[r][c][k].0 != j0;
        }
      }
    }
    FlattenAgrees(w, |w|, a, b);
    var t := FlattenRowsPosition(w, |w|, r0, c0, k0);
    assert Flatten(w)[t].0 == j0;
    ApplyAgreeing(a, b, Flatten(w));
    assert Apply(a, Flatten(w)) == b;
  }
}
