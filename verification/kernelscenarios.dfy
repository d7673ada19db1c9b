/** The flocking kernels on the inputs of their own test suite
    (CorrectnessTests.cs): two agents one unit apart on the x axis, three
    agents on the corners of a right triangle, a sum of three pairs, a
    scaling by per-agent factors, a normalisation and a wrap of two
    positions. Square roots enter only through the values the tests rely
    on: sqrt(1) = 1, and for the triangle the roots d of 2 and q of d. */
module KernelScenarios {
  import opened Buffers
  import opened Vectors
  import opened BoidsMath

  /** The two agents of the tests: (0, 0) and (1, 0). */
  function Pair(): seq<Vector3> {
    [Vector3(0.0, 0.0, 0.0), Vector3(1.0, 0.0, 0.0)]
  }

  /** A new buffer of the given vectors, in view in full. */
  method BufferOf(vs: seq<Vector3>) returns (b: BComponent<Vector3>)
    ensures fresh(b) && fresh(b.data) && b.Valid() && b.length == |vs| && b.data[..] == vs
  {
    var a := new Vector3[|vs|](i requires 0 <= i < |vs| => vs[i]);
    b := new BComponent(a, |vs|);
  }

  /** SimpleAvoidanceTest: each of the two agents is pushed one unit straight
      away from the other. */
  method AvoidanceOfPair(sqrt: real -> real) returns (result: BComponent<Vector3>)
    requires sqrt(1.0) == 1.0
    ensures result.Valid() && result.length == 2 && result.data[..] == [Vector3(-1.0, 0.0, 0.0), Vector3(1.0, 0.0, 0.0)]
  {
    var sample := BufferOf(Pair());
    result := BufferOf([Zero, Zero]);
    PairSeparated(sqrt);
    assert sample.Elements() == Pair();
    result := GetAvoidanceVector(sample, result, sqrt);
    PairAvoidance(sqrt);
    assert result.data[..] == [result.data[0], result.data[1]];
  }

  /** The avoidance vector of each agent of the pair, with sqrt(1) = 1. */
  lemma PairAvoidance(sqrt: real -> real)
    requires sqrt(1.0) == 1.0
    ensures Separated(Pair(), sqrt)
    ensures Avoidance(Pair(), 0, sqrt) == Vector3(-1.0, 0.0, 0.0)
    ensures Avoidance(Pair(), 1, sqrt) == Vector3(1.0, 0.0, 0.0)
  {
    PairSeparated(sqrt);
    PairRepulsion(sqrt);
    AvoidanceOfFirst(sqrt);
    AvoidanceOfSecond(sqrt);
  }

  lemma AvoidanceOfFirst(sqrt: real -> real)
    requires Separated(Pair(), sqrt) && Apart(Pair()[0], Pair()[1], sqrt)
    requires Repulsion(Pair()[0], Pair()[1], sqrt) == Vector3(-1.0, 0.0, 0.0)
    ensures Avoidance(Pair(), 0, sqrt) == Vector3(-1.0, 0.0, 0.0)
  {
    var ps := Pair();
    assert Accumulate(Zero, ps, 0, 0, 0, sqrt) == Zero;
    assert Accumulate(Zero, ps, 0, 1, 1, sqrt) == Zero;
  }

  lemma AvoidanceOfSecond(sqrt: real -> real)
    requires Separated(Pair(), sqrt) && Apart(Pair()[1], Pair()[0], sqrt)
    requires Repulsion(Pair()[1], Pair()[0], sqrt) == Vector3(1.0, 0.0, 0.0)
    ensures Avoidance(Pair(), 1, sqrt) == Vector3(1.0, 0.0, 0.0)
  {
    var ps := Pair();
    assert Accumulate(Zero, ps, 1, 0, 0, sqrt) == Zero;
    assert Accumulate(Zero, ps, 1, 0, 1, sqrt) == Vector3(1.0, 0.0, 0.0);
  }

  /** The push of each agent of the pair on the other. */
  lemma PairRepulsion(sqrt: real -> real)
    requires sqrt(1.0) == 1.0
    ensures Apart(Pair()[0], Pair()[1], sqrt) && Repulsion(Pair()[0], Pair()[1], sqrt) == Vector3(-1.0, 0.0, 0.0)
    ensures Apart(Pair()[1], Pair()[0], sqrt) && Repulsion(Pair()[1], Pair()[0], sqrt) == Vector3(1.0, 0.0, 0.0)
  {
    assert Distance(Pair()[0], Pair()[1], sqrt) == 1.0;
    assert Distance(Pair()[1], Pair()[0], sqrt) == 1.0;
  }

  /** The mean of the pair is (0.5, 0). */
  lemma PairMean()
    ensures Mean(Pair()) == Vector3(0.5, 0.0, 0.0)
  {
    var ps := Pair();
    assert SumPrefix(ps, 1) == Add(SumPrefix(ps, 0), ps[0]) == Vector3(0.0, 0.0, 0.0);
    assert SumPrefix(ps, 2) == Add(SumPrefix(ps, 1), ps[1]) == Vector3(1.0, 0.0, 0.0);
    assert Mean(ps) == Div(Vector3(1.0, 0.0, 0.0), 2.0);
  }

  /** The two agents of the pair are apart when sqrt(1) = 1. */
  lemma PairSeparated(sqrt: real -> real)
    requires sqrt(1.0) == 1.0
    ensures Separated(Pair(), sqrt)
  {
    assert Distance(Pair()[0], Pair()[1], sqrt) == 1.0;
    assert Distance(Pair()[1], Pair()[0], sqrt) == 1.0;
  }

  /** SimpleCoheranceTest: each agent is sent half a unit towards the other,
      where their mean lies. */
  method CohesionOfPair() returns (result: BComponent<Vector3>)
    ensures result.Valid() && result.length == 2 && result.data[..] == [Vector3(0.5, 0.0, 0.0), Vector3(-0.5, 0.0, 0.0)]
  {
    var sample := BufferOf(Pair());
    result := BufferOf([Zero, Zero]);
    assert sample.Elements() == Pair();
    PairMean();
    var output := result;
    result := GetCoheranceVector(sample, output);
    assert result.length == output.length == 2;
    assert result.data[0] == Vectors.Sub(Vector3(0.5, 0.0, 0.0), Pair()[0]);
    assert result.data[1] == Vectors.Sub(Vector3(0.5, 0.0, 0.0), Pair()[1]);
    assert result.data[..] == [result.data[0], result.data[1]];
  }

  /** SimpleAlignmentTest: both agents get the mean of the pair. */
  method AlignmentOfPair() returns (result: BComponent<Vector3>)
    ensures result.Valid() && result.length == 2 && result.data[..] == [Vector3(0.5, 0.0, 0.0), Vector3(0.5, 0.0, 0.0)]
  {
    var sample := BufferOf(Pair());
    result := BufferOf([Zero, Zero]);
    assert sample.Elements() == Pair();
    PairMean();
    result := GetAlignmentVector(sample, result);
    assert result.data[..] == [result.data[0], result.data[1]];
  }

  /** SimpleAlignmentCoheranceAligmentTest: avoidance, cohesion and alignment
      of the pair added up, the second sum written over its own input, give
      (0, 0) and (1, 0). */
  method FlockOfPair(sqrt: real -> real) returns (result: BComponent<Vector3>)
    requires sqrt(1.0) == 1.0
    ensures result.Valid() && result.length == 2 && result.data[..] == Pair()
  {
    var avoidance := AvoidanceOfPair(sqrt);
    var cohesion := CohesionOfPair();
    var alignment := AlignmentOfPair();
    result := BufferOf([Zero, Zero]);
    var first := Sum(avoidance, cohesion, result);
    assert result.data[0] == Vector3(-0.5, 0.0, 0.0) && result.data[1] == Vector3(0.5, 0.0, 0.0);
    var second := Sum(result, alignment, result);
    assert result.data[0] == Vector3(0.0, 0.0, 0.0) && result.data[1] == Vector3(1.0, 0.0, 0.0);
    ListedPair(result.data, Vector3(0.0, 0.0, 0.0), Vector3(1.0, 0.0, 0.0));
  }

  /** An array that agrees with a sequence element by element holds exactly it. */
  lemma Listed(a: array<Vector3>, vs: seq<Vector3>)
    requires a.Length == |vs|
    requires forall i :: 0 <= i < |vs| ==> a[i] == vs[i]
    ensures a[..] == vs
  {
  }

  /** The two-element case of Listed. */
  lemma ListedPair(a: array<Vector3>, x: Vector3, y: Vector3)
    requires a.Length == 2 && a[0] == x && a[1] == y
    ensures a[..] == [x, y]
  {
    assert a[..] == [a[0], a[1]];
  }

  /** ScaleVectorTest: every vector scaled by its own factor. */
  method ScaleEach() returns (result: BComponent<Vector3>)
    ensures result.Valid() && result.length == 5
    ensures result.data[..] == [Vector3(0.0, 0.0, 0.0), Vector3(123.0, 432.0, 213.0), Vector3(8.0, 16.0, 24.0),
                                Vector3(-12.0, -8.0, -4.0), Vector3(0.0, 0.0, 0.0)]
  {
    var a := new real[5](i requires 0 <= i < 5 => [0.0, 1.0, 8.0, -4.0, 1.0][i]);
    var scalar := new BComponent(a, 5);
    var vector := BufferOf([Vector3(100.0, 100.0, 100.0), Vector3(123.0, 432.0, 213.0), Vector3(1.0, 2.0, 3.0),
                            Vector3(3.0, 2.0, 1.0), Vector3(0.0, 0.0, 0.0)]);
    result := BufferOf([Zero, Zero, Zero, Zero, Zero]);
    var output := result;
    result := ScalePerElement(scalar, vector, output);
    assert result.length == output.length == 5;
    assert result.data[0] == Vector3(0.0, 0.0, 0.0);
    assert result.data[1] == Vector3(123.0, 432.0, 213.0);
    assert result.data[2] == Vector3(8.0, 16.0, 24.0);
    assert result.data[3] == Vector3(-12.0, -8.0, -4.0);
    assert result.data[4] == Vector3(0.0, 0.0, 0.0);
    Listed(result.data, [Vector3(0.0, 0.0, 0.0), Vector3(123.0, 432.0, 213.0), Vector3(8.0, 16.0, 24.0),
                         Vector3(-12.0, -8.0, -4.0), Vector3(0.0, 0.0, 0.0)]);
  }

  /** WrapPosition: on a 10 x 10 field, (12, 0) wraps to (2, 0) and (0, 12)
      to (0, 2). */
  method WrapPair() returns (result: BComponent<Vector3>)
    ensures result.Valid() && result.length == 2 && result.data[..] == [Vector3(2.0, 0.0, 0.0), Vector3(0.0, 2.0, 0.0)]
  {
    var vector := BufferOf([Vector3(12.0, 0.0, 0.0), Vector3(0.0, 12.0, 0.0)]);
    result := BufferOf([Zero, Zero]);
    RepeatInRange(0.0, 10.0);
    assert Repeat(12.0, 10.0) == 2.0 by {
      assert (12.0 / 10.0).Floor == 1;
    }
    result := WrapBetween(10.0, 10.0, vector, result);
    assert result.data[..] == [result.data[0], result.data[1]];
  }

  /** SumVecsTest: (1,1,1) + (4,4,4), (2,2,2) + (5,5,5) and (3,3,3) + (5,5,5). */
  method SumThree() returns (result: BComponent<Vector3>)
    ensures result.Valid() && result.length == 3
    ensures result.data[..] == [Vector3(5.0, 5.0, 5.0), Vector3(7.0, 7.0, 7.0), Vector3(8.0, 8.0, 8.0)]
  {
    var left := BufferOf([Vector3(1.0, 1.0, 1.0), Vector3(2.0, 2.0, 2.0), Vector3(3.0, 3.0, 3.0)]);
    var right := BufferOf([Vector3(4.0, 4.0, 4.0), Vector3(5.0, 5.0, 5.0), Vector3(5.0, 5.0, 5.0)]);
    result := BufferOf([Zero, Zero, Zero]);
    var outcome := Sum(left, right, result);
    assert result.data[..] == [result.data[0], result.data[1], result.data[2]];
  }

  /** NormalizeVectorTest: (1, 0) is already of unit length, and (0.5, 0.5)
      becomes its own normalisation. */
  method NormalizePair(sqrt: real -> real) returns (result: BComponent<Vector3>)
    requires sqrt(1.0) == 1.0
    ensures result.Valid() && result.length == 2
    ensures result.data[..] == [Vector3(1.0, 0.0, 0.0), Normalized(Vector3(0.5, 0.5, 0.0), sqrt)]
  {
    var vector := BufferOf([Vector3(1.0, 0.0, 0.0), Vector3(0.5, 0.5, 0.0)]);
    result := BufferOf([Zero, Zero]);
    var output := result;
    result := Normalize(vector, output, sqrt);
    assert result.length == output.length == 2;
    assert Magnitude(Vector3(1.0, 0.0, 0.0), sqrt) == 1.0;
    assert result.data[0] == Vector3(1.0, 0.0, 0.0);
    assert result.data[1] == Normalized(Vector3(0.5, 0.5, 0.0), sqrt);
    ListedPair(result.data, Vector3(1.0, 0.0, 0.0), Normalized(Vector3(0.5, 0.5, 0.0), sqrt));
  }

  /** The three agents of ComplexAvoidanceTest: (0, 1), (0, 0) and (1, 0). */
  function Triangle(): seq<Vector3> {
    [Vector3(0.0, 1.0, 0.0), Vector3(0.0, 0.0, 0.0), Vector3(1.0, 0.0, 0.0)]
  }

  /** ps holds the three agents of the triangle. */
  predicate IsTriangle(ps: seq<Vector3>) {
    |ps| == 3 && ps[0] == Vector3(0.0, 1.0, 0.0) && ps[1] == Vector3(0.0, 0.0, 0.0) && ps[2] == Vector3(1.0, 0.0, 0.0)
  }

  /** ComplexAvoidanceTest: with d = sqrt(2) the distance across the
      hypotenuse and q = sqrt(d) the test's 2^(1/4), the corner agent is
      pushed (-1, -1) and the other two each get a unit push from the corner
      plus their difference along the hypotenuse divided by q. */
  method AvoidanceOfTriangle(sqrt: real -> real, d: real, q: real) returns (result: BComponent<Vector3>)
    requires sqrt(1.0) == 1.0 && sqrt(2.0) == d && sqrt(d) == q && q != 0.0
    ensures result.Valid() && result.length == 3
    ensures result.data[..] == [Add(Vector3(0.0, 1.0, 0.0), Div(Vector3(-1.0, 1.0, 0.0), q)), Vector3(-1.0, -1.0, 0.0),
                                Add(Div(Vector3(1.0, -1.0, 0.0), q), Vector3(1.0, 0.0, 0.0))]
  {
    var sample := BufferOf(Triangle());
    ghost var ps := sample.Elements();
    TriangleSides(ps);
    TriangleLegs(ps, sqrt);
    TriangleHypotenuse(ps, sqrt, d, q);
    ThreeSeparated(ps, sqrt);
    TriangleAvoidance(ps, sqrt, q);
    result := AvoidThree(sample, sqrt, q);
  }

  /** The avoidance kernel on three separated agents whose avoidance vectors
      are those of the triangle. */
  method AvoidThree(sample: BComponent<Vector3>, sqrt: real -> real, q: real) returns (result: BComponent<Vector3>)
    requires sample.Valid() && sample.length == 3 && Separated(sample.Elements(), sqrt) && q != 0.0
    requires Avoidance(sample.Elements(), 0, sqrt) == Add(Vector3(0.0, 1.0, 0.0), Div(Vector3(-1.0, 1.0, 0.0), q))
    requires Avoidance(sample.Elements(), 1, sqrt) == Vector3(-1.0, -1.0, 0.0)
    requires Avoidance(sample.Elements(), 2, sqrt) == Add(Div(Vector3(1.0, -1.0, 0.0), q), Vector3(1.0, 0.0, 0.0))
    ensures result.Valid() && result.length == 3
    ensures result.data[..] == [Add(Vector3(0.0, 1.0, 0.0), Div(Vector3(-1.0, 1.0, 0.0), q)), Vector3(-1.0, -1.0, 0.0),
                                Add(Div(Vector3(1.0, -1.0, 0.0), q), Vector3(1.0, 0.0, 0.0))]
  {
    result := BufferOf([Zero, Zero, Zero]);
    var output := result;
    result := GetAvoidanceVector(sample, output, sqrt);
    assert result.length == output.length == 3;
    assert result.data[..] == [result.data[0], result.data[1], result.data[2]];
  }

  /** The differences between the agents of the triangle. */
  lemma TriangleSides(ps: seq<Vector3>)
    requires IsTriangle(ps)
    ensures Vectors.Sub(ps[0], ps[1]) == Vector3(0.0, 1.0, 0.0) && Vectors.Sub(ps[1], ps[0]) == Vector3(0.0, -1.0, 0.0)
    ensures Vectors.Sub(ps[1], ps[2]) == Vector3(-1.0, 0.0, 0.0) && Vectors.Sub(ps[2], ps[1]) == Vector3(1.0, 0.0, 0.0)
    ensures Vectors.Sub(ps[0], ps[2]) == Vector3(-1.0, 1.0, 0.0) && Vectors.Sub(ps[2], ps[0]) == Vector3(1.0, -1.0, 0.0)
  {
  }

  /** The avoidance vector of each agent of the triangle, from the pushes
      of the agents on each other. */
  lemma TriangleAvoidance(ps: seq<Vector3>, sqrt: real -> real, q: real)
    requires |ps| == 3 && Separated(ps, sqrt) && q != 0.0
    requires Repulsion(ps[0], ps[1], sqrt) == Vector3(0.0, 1.0, 0.0) && Repulsion(ps[0], ps[2], sqrt) == Div(Vector3(-1.0, 1.0, 0.0), q)
    requires Repulsion(ps[1], ps[0], sqrt) == Vector3(0.0, -1.0, 0.0) && Repulsion(ps[1], ps[2], sqrt) == Vector3(-1.0, 0.0, 0.0)
    requires Repulsion(ps[2], ps[0], sqrt) == Div(Vector3(1.0, -1.0, 0.0), q) && Repulsion(ps[2], ps[1], sqrt) == Vector3(1.0, 0.0, 0.0)
    ensures Avoidance(ps, 0, sqrt) == Add(Vector3(0.0, 1.0, 0.0), Div(Vector3(-1.0, 1.0, 0.0), q))
    ensures Avoidance(ps, 1, sqrt) == Vector3(-1.0, -1.0, 0.0)
    ensures Avoidance(ps, 2, sqrt) == Add(Div(Vector3(1.0, -1.0, 0.0), q), Vector3(1.0, 0.0, 0.0))
  {
    AvoidanceOfThree(ps, sqrt);
  }

  /** The pushes along the two legs of the triangle: one unit each. */
  lemma TriangleLegs(ps: seq<Vector3>, sqrt: real -> real)
    requires |ps| == 3 && sqrt(1.0) == 1.0
    requires Vectors.Sub(ps[0], ps[1]) == Vector3(0.0, 1.0, 0.0) && Vectors.Sub(ps[1], ps[0]) == Vector3(0.0, -1.0, 0.0)
    requires Vectors.Sub(ps[1], ps[2]) == Vector3(-1.0, 0.0, 0.0) && Vectors.Sub(ps[2], ps[1]) == Vector3(1.0, 0.0, 0.0)
    ensures Apart(ps[0], ps[1], sqrt) && Repulsion(ps[0], ps[1], sqrt) == Vector3(0.0, 1.0, 0.0)
    ensures Apart(ps[1], ps[0], sqrt) && Repulsion(ps[1], ps[0], sqrt) == Vector3(0.0, -1.0, 0.0)
    ensures Apart(ps[1], ps[2], sqrt) && Repulsion(ps[1], ps[2], sqrt) == Vector3(-1.0, 0.0, 0.0)
    ensures Apart(ps[2], ps[1], sqrt) && Repulsion(ps[2], ps[1], sqrt) == Vector3(1.0, 0.0, 0.0)
  {
    Push(ps[0], ps[1], Vector3(0.0, 1.0, 0.0), sqrt, 1.0, 1.0, 1.0);
    Push(ps[1], ps[0], Vector3(0.0, -1.0, 0.0), sqrt, 1.0, 1.0, 1.0);
    Push(ps[1], ps[2], Vector3(-1.0, 0.0, 0.0), sqrt, 1.0, 1.0, 1.0);
    Push(ps[2], ps[1], Vector3(1.0, 0.0, 0.0), sqrt, 1.0, 1.0, 1.0);
  }

  /** The pushes along the hypotenuse: the difference over q. */
  lemma TriangleHypotenuse(ps: seq<Vector3>, sqrt: real -> real, d: real, q: real)
    requires |ps| == 3 && sqrt(2.0) == d && sqrt(d) == q && q != 0.0
    requires Vectors.Sub(ps[0], ps[2]) == Vector3(-1.0, 1.0, 0.0) && Vectors.Sub(ps[2], ps[0]) == Vector3(1.0, -1.0, 0.0)
    ensures Apart(ps[0], ps[2], sqrt) && Repulsion(ps[0], ps[2], sqrt) == Div(Vector3(-1.0, 1.0, 0.0), q)
    ensures Apart(ps[2], ps[0], sqrt) && Repulsion(ps[2], ps[0], sqrt) == Div(Vector3(1.0, -1.0, 0.0), q)
  {
    Push(ps[0], ps[2], Vector3(-1.0, 1.0, 0.0), sqrt, 2.0, d, q);
    Push(ps[2], ps[0], Vector3(1.0, -1.0, 0.0), sqrt, 2.0, d, q);
  }

  /** The push of q0 on p, once sqrt gives the distance between them and its
      square root: their difference divided by that root. */
  lemma Push(p: Vector3, q0: Vector3, diff: Vector3, sqrt: real -> real, square: real, dist: real, s: real)
    requires Vectors.Sub(p, q0) == diff && SqrMagnitude(diff) == square
    requires sqrt(square) == dist && sqrt(dist) == s && s != 0.0
    ensures Apart(p, q0, sqrt) && Repulsion(p, q0, sqrt) == Div(diff, s)
  {
  }

  /** Three agents each apart from the two others are separated. */
  lemma ThreeSeparated(ps: seq<Vector3>, sqrt: real -> real)
    requires |ps| == 3
    requires Apart(ps[0], ps[1], sqrt) && Apart(ps[0], ps[2], sqrt) && Apart(ps[1], ps[2], sqrt)
    requires Apart(ps[1], ps[0], sqrt) && Apart(ps[2], ps[0], sqrt) && Apart(ps[2], ps[1], sqrt)
    ensures Separated(ps, sqrt)
  {
    forall i, l | 0 <= i < 3 && 0 <= l < 3 && i != l
      ensures Apart(ps[i], ps[l], sqrt)
    {
      if i == 0 {
        if l == 1 { } else { assert l == 2; }
      } else if i == 1 {
        if l == 0 { } else { assert l == 2; }
      } else {
        if l == 0 { } else { assert l == 1; }
      }
    }
  }

  /** The avoidance vector of each of three agents: the pushes of the two
      others, the lower-indexed one first. */
  lemma AvoidanceOfThree(ps: seq<Vector3>, sqrt: real -> real)
    requires |ps| == 3 && Separated(ps, sqrt)
    ensures Avoidance(ps, 0, sqrt) == Add(Add(Zero, Repulsion(ps[0], ps[1], sqrt)), Repulsion(ps[0], ps[2], sqrt))
    ensures Avoidance(ps, 1, sqrt) == Add(Add(Zero, Repulsion(ps[1], ps[0], sqrt)), Repulsion(ps[1], ps[2], sqrt))
    ensures Avoidance(ps, 2, sqrt) == Add(Add(Zero, Repulsion(ps[2], ps[0], sqrt)), Repulsion(ps[2], ps[1], sqrt))
  {
    assert Accumulate(Zero, ps, 0, 0, 0, sqrt) == Zero;
    assert Accumulate(Zero, ps, 0, 1, 2, sqrt) == Add(Zero, Repulsion(ps[0], ps[1], sqrt));
    assert Accumulate(Zero, ps, 1, 0, 1, sqrt) == Add(Zero, Repulsion(ps[1], ps[0], sqrt));
    assert Accumulate(Zero, ps, 2, 0, 1, sqrt) == Add(Zero, Repulsion(ps[2], ps[0], sqrt));
  }
}
