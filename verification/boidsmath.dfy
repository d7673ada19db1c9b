/** The flocking kernels of BoidsMath.cs. Each one is a loop that writes
    `output.data[i]` in place for every agent `i` below its loop bound; the
    specification functions below say what each slot ends up holding. */
module BoidsMath {
  import opened Buffers
  import opened Vectors

  /** Whether the equal-length assertion of Sum and Sub held. */
  datatype Outcome = Pass | LengthMismatch

  // ---------------------------------------------------------------------------
  // Specification functions

  /** s[0] + s[1] + ... + s[n-1], accumulated left to right from zero. */
  function SumPrefix(s: seq<Vector3>, n: nat): Vector3
    requires n <= |s|
  {
    if n == 0 then Zero else Add(SumPrefix(s, n - 1), s[n - 1])
  }

  /** The mean of a non-empty sequence of vectors. */
  function Mean(s: seq<Vector3>): Vector3
    requires |s| > 0
  {
    Div(SumPrefix(s, |s|), |s| as real)
  }

  /** No two distinct agents are at a distance whose square root is zero, so
      every avoidance term is a real number. */
  ghost predicate Separated(ps: seq<Vector3>, sqrt: real -> real) {
    forall i, l {:trigger Apart(ps[i], ps[l], sqrt)} ::
      0 <= i < |ps| && 0 <= l < |ps| && i != l ==> Apart(ps[i], ps[l], sqrt)
  }

  /** The avoidance term of q on p is defined: sqrt(|p - q|) is not zero. */
  predicate Apart(p: Vector3, q: Vector3, sqrt: real -> real) {
    sqrt(Distance(p, q, sqrt)) != 0.0
  }

  /** The push of agent q on agent p: (p - q) / sqrt(|p - q|). */
  function Repulsion(p: Vector3, q: Vector3, sqrt: real -> real): Vector3
    requires Apart(p, q, sqrt)
  {
    Div(Vectors.Sub(p, q), sqrt(Distance(p, q, sqrt)))
  }

  /** acc + Repulsion(ps[i], ps[lo]) + ... + Repulsion(ps[i], ps[hi-1]): one of
      the two inner loops of the avoidance kernel, which both leave out i. */
  function Accumulate(acc: Vector3, ps: seq<Vector3>, i: nat, lo: nat, hi: nat, sqrt: real -> real): Vector3
    requires Separated(ps, sqrt)
    requires i < |ps| && lo <= hi <= |ps|
    requires hi <= i || i < lo
    decreases hi - lo
  {
    if hi == lo then acc
    else Add(Accumulate(acc, ps, i, lo, hi - 1, sqrt), Repulsion(ps[i], ps[hi - 1], sqrt))
  }

  /** The avoidance vector of agent i as the kernel computes it: the loop below
      i, then the loop above i. */
  function Avoidance(ps: seq<Vector3>, i: nat, sqrt: real -> real): Vector3
    requires Separated(ps, sqrt) && i < |ps|
  {
    Accumulate(Accumulate(Zero, ps, i, 0, i, sqrt), ps, i, i + 1, |ps|, sqrt)
  }

  /** Reference definition: one pass over the first hi agents that adds the
      push of every other agent and nothing for agent i itself. */
  function AvoidanceSkippingSelf(ps: seq<Vector3>, i: nat, hi: nat, sqrt: real -> real): Vector3
    requires Separated(ps, sqrt) && i < |ps| && hi <= |ps|
  {
    if hi == 0 then Zero
    else Add(AvoidanceSkippingSelf(ps, i, hi - 1, sqrt),
             if hi - 1 == i then Zero else Repulsion(ps[i], ps[hi - 1], sqrt))
  }

  /** The two loops split at i sum the same terms, in the same order, as a
      single loop that skips the self term. */
  lemma {:induction false} SplitLoopsSkipSelf(ps: seq<Vector3>, i: nat, hi: nat, sqrt: real -> real)
    requires Separated(ps, sqrt) && i < |ps| && hi <= |ps|
    ensures hi <= i ==> AvoidanceSkippingSelf(ps, i, hi, sqrt) == Accumulate(Zero, ps, i, 0, hi, sqrt)
    ensures i < hi ==> AvoidanceSkippingSelf(ps, i, hi, sqrt)
                         == Accumulate(Accumulate(Zero, ps, i, 0, i, sqrt), ps, i, i + 1, hi, sqrt)
  {
    if hi > 0 {
      SplitLoopsSkipSelf(ps, i, hi - 1, sqrt);
    }
  }

  lemma AvoidanceSkipsSelf(ps: seq<Vector3>, i: nat, sqrt: real -> real)
    requires Separated(ps, sqrt) && i < |ps|
    ensures Avoidance(ps, i, sqrt) == AvoidanceSkippingSelf(ps, i, |ps|, sqrt)
  {
    SplitLoopsSkipSelf(ps, i, |ps|, sqrt);
  }

  /** Sum over the first n agents of (m - ps[k]): the cohesion vectors added up. */
  function SumOfDeviations(ps: seq<Vector3>, m: Vector3, n: nat): Vector3
    requires n <= |ps|
  {
    if n == 0 then Zero else Add(SumOfDeviations(ps, m, n - 1), Vectors.Sub(m, ps[n - 1]))
  }

  lemma {:induction false} SumOfDeviationsIs(ps: seq<Vector3>, m: Vector3, n: nat)
    requires n <= |ps|
    ensures SumOfDeviations(ps, m, n) == Vectors.Sub(Scale(n as real, m), SumPrefix(ps, n))
  {
    if n > 0 {
      SumOfDeviationsIs(ps, m, n - 1);
    }
  }

  /** The cohesion vectors of a group balance out: they add up to zero. */
  lemma CohesionBalances(ps: seq<Vector3>)
    requires |ps| > 0
    ensures SumOfDeviations(ps, Mean(ps), |ps|) == Zero
  {
    var n := |ps| as real;
    var s := SumPrefix(ps, |ps|);
    SumOfDeviationsIs(ps, Mean(ps), |ps|);
    DivMul(s.x, n);
    DivMul(s.y, n);
    DivMul(s.z, n);
  }

  lemma {:induction false} SumOfConstant(s: seq<Vector3>, v: Vector3, n: nat)
    requires n <= |s|
    requires forall k :: 0 <= k < |s| ==> s[k] == v
    ensures SumPrefix(s, n) == Scale(n as real, v)
  {
    if n > 0 {
      SumOfConstant(s, v, n - 1);
      var m := (n - 1) as real;
      assert m * v.x + v.x == (n as real) * v.x;
      assert m * v.y + v.y == (n as real) * v.y;
      assert m * v.z + v.z == (n as real) * v.z;
    }
  }

  /** The mean of a group that all share one vector is that vector: so the
      alignment of an already aligned group changes nothing. */
  lemma MeanOfConstant(s: seq<Vector3>, v: Vector3)
    requires |s| > 0
    requires forall k :: 0 <= k < |s| ==> s[k] == v
    ensures Mean(s) == v
  {
    SumOfConstant(s, v, |s|);
  }

  // ---------------------------------------------------------------------------
  // Kernels

  /** GetAvoidanceVector. The source zeroes output[i] before reading objs[i],
      so it requires output and objs to be different arrays. Its two inner
      loops, over the agents below i and above i, are the same loop over two
      ranges: AddRepulsions. */
  method GetAvoidanceVector(objs: BComponent<Vector3>, output: BComponent<Vector3>, sqrt: real -> real)
    returns (result: BComponent<Vector3>)
    requires objs.Valid() && objs.length <= output.data.Length
    requires output.data != objs.data
    requires Separated(objs.Elements(), sqrt)
    modifies output.data
    ensures result == output
    ensures forall i :: 0 <= i < objs.length ==>
              output.data[i] == Avoidance(objs.Elements(), i, sqrt)
    ensures forall i :: objs.length <= i < output.data.Length ==> output.data[i] == old(output.data[i])
  {
    var n := objs.length;
    ghost var ps := objs.data[..n];
    for i := 0 to n
      invariant forall k :: 0 <= k < i ==> output.data[k] == Avoidance(ps, k, sqrt)
      invariant forall k :: i <= k < output.data.Length ==> output.data[k] == old(output.data[k])
    {
      output.data[i] := Zero;
      AddRepulsions(objs, output, i, 0, i, sqrt);
      AddRepulsions(objs, output, i, i + 1, n, sqrt);
    }
    result := output;
  }

  /** One inner loop of the avoidance kernel: output[i] += the push of each of
      the agents lo .. hi-1 on agent i. */
  method AddRepulsions(objs: BComponent<Vector3>, output: BComponent<Vector3>, i: nat, lo: nat, hi: nat,
                       sqrt: real -> real)
    requires objs.Valid() && objs.length <= output.data.Length
    requires output.data != objs.data
    requires Separated(objs.Elements(), sqrt)
    requires i < objs.length && lo <= hi <= objs.length && (hi <= i || i < lo)
    modifies output.data
    ensures output.data[i] == Accumulate(old(output.data[i]), objs.Elements(), i, lo, hi, sqrt)
    ensures forall k :: 0 <= k < output.data.Length && k != i ==> output.data[k] == old(output.data[k])
  {
    ghost var ps := objs.data[..objs.length];
    for l := lo to hi
      invariant output.data[i] == Accumulate(old(output.data[i]), ps, i, lo, l, sqrt)
      invariant forall k :: 0 <= k < output.data.Length && k != i ==> output.data[k] == old(output.data[k])
    {
      assert objs.data[i] == ps[i] && objs.data[l] == ps[l] && Apart(ps[i], ps[l], sqrt);
      var dist := Distance(objs.data[i], objs.data[l], sqrt);
      output.data[i] := Add(output.data[i], Div(Vectors.Sub(objs.data[i], objs.data[l]), sqrt(dist)));
    }
  }

  /** GetCoheranceVector: each agent's vector towards the group's mean. The
      mean is complete before the first write, so output may be positions. */
  method GetCoheranceVector(positions: BComponent<Vector3>, output: BComponent<Vector3>)
    returns (result: BComponent<Vector3>)
    requires positions.Valid() && positions.length <= output.data.Length
    modifies output.data
    ensures result == output
    ensures forall i :: 0 <= i < positions.length ==>
              output.data[i] == Vectors.Sub(Mean(old(positions.Elements())), old(positions.data[i]))
    ensures forall i :: positions.length <= i < output.data.Length ==> output.data[i] == old(output.data[i])
  {
    var n := positions.length;
    ghost var ps := positions.data[..n];
    var averagePosition := Zero;
    for i := 0 to n
      invariant averagePosition == SumPrefix(ps, i)
    {
      averagePosition := Add(averagePosition, positions.data[i]);
    }
    if n > 0 {
      averagePosition := Div(averagePosition, n as real);
    }
    for i := 0 to n
      invariant forall k :: 0 <= k < i ==> output.data[k] == Vectors.Sub(Mean(ps), ps[k])
      invariant forall k :: i <= k < output.data.Length ==> output.data[k] == old(output.data[k])
      invariant forall k :: i <= k < n ==> positions.data[k] == ps[k]
    {
      output.data[i] := Vectors.Sub(averagePosition, positions.data[i]);
    }
    result := output;
  }

  /** GetAlignmentVector: every agent gets the mean of all the inputs. The
      source recomputes the sum for each agent, reading inputs it may already
      have overwritten, so it requires output and objs to be different arrays. */
  method GetAlignmentVector(objs: BComponent<Vector3>, output: BComponent<Vector3>)
    returns (result: BComponent<Vector3>)
    requires objs.Valid() && objs.length <= output.data.Length
    requires output.data != objs.data
    modifies output.data
    ensures result == output
    ensures forall i :: 0 <= i < objs.length ==> output.data[i] == Mean(objs.Elements())
    ensures forall i :: objs.length <= i < output.data.Length ==> output.data[i] == old(output.data[i])
  {
    var n := objs.length;
    ghost var ps := objs.data[..n];
    for i := 0 to n
      invariant forall k :: 0 <= k < i ==> output.data[k] == Mean(ps)
      invariant forall k :: i <= k < output.data.Length ==> output.data[k] == old(output.data[k])
    {
      var sum := Zero;
      for j := 0 to n
        invariant sum == SumPrefix(ps, j)
      {
        sum := Add(sum, objs.data[j]);
      }
      output.data[i] := Div(sum, n as real);
    }
    result := output;
  }

  /** Sum: output[i] = left[i] + right[i] for every i below left's length.
      The length check is Unity's Assert.AreEqual, which reports a mismatch
      without stopping the loop: the outcome says whether the lengths agreed,
      and the loop runs either way. Each slot is read before it is written,
      so output may be either input. */
  method Sum(left: BComponent<Vector3>, right: BComponent<Vector3>, output: BComponent<Vector3>)
    returns (outcome: Outcome)
    requires left.Valid() && left.length <= right.data.Length && left.length <= output.data.Length
    modifies output.data
    ensures outcome == Pass <==> left.length == right.length
    ensures forall i :: 0 <= i < left.length ==> output.data[i] == Add(old(left.data[i]), old(right.data[i]))
    ensures forall i :: left.length <= i < output.data.Length ==> output.data[i] == old(output.data[i])
  {
    outcome := if left.length == right.length then Pass else LengthMismatch;
    for i := 0 to left.length
      invariant forall k :: 0 <= k < i ==> output.data[k] == Add(old(left.data[k]), old(right.data[k]))
      invariant forall k :: i <= k < output.data.Length ==> output.data[k] == old(output.data[k])
      invariant forall k :: i <= k < left.length ==> left.data[k] == old(left.data[k]) && right.data[k] == old(right.data[k])
    {
      output.data[i] := Add(left.data[i], right.data[i]);
    }
  }

  /** Sub: output[i] = left[i] - right[i] for every i below left's length;
      the length check reports and does not stop, as in Sum. Output may be
      either input. */
  method Sub(left: BComponent<Vector3>, right: BComponent<Vector3>, output: BComponent<Vector3>)
    returns (outcome: Outcome)
    requires left.Valid() && left.length <= right.data.Length && left.length <= output.data.Length
    modifies output.data
    ensures outcome == Pass <==> left.length == right.length
    ensures forall i :: 0 <= i < left.length ==> output.data[i] == Vectors.Sub(old(left.data[i]), old(right.data[i]))
    ensures forall i :: left.length <= i < output.data.Length ==> output.data[i] == old(output.data[i])
  {
    outcome := if left.length == right.length then Pass else LengthMismatch;
    for i := 0 to left.length
      invariant forall k :: 0 <= k < i ==> output.data[k] == Vectors.Sub(old(left.data[k]), old(right.data[k]))
      invariant forall k :: i <= k < output.data.Length ==> output.data[k] == old(output.data[k])
      invariant forall k :: i <= k < left.length ==> left.data[k] == old(left.data[k]) && right.data[k] == old(right.data[k])
    {
      output.data[i] := Vectors.Sub(left.data[i], right.data[i]);
    }
  }

  /** Scale(BComponent<float>, ...): output[i] = scalar[i] * vector[i], for
      as many agents as `scalar` holds. */
  method ScalePerElement(scalar: BComponent<real>, vector: BComponent<Vector3>, output: BComponent<Vector3>)
    returns (result: BComponent<Vector3>)
    requires scalar.Valid()
    requires scalar.length <= vector.data.Length && scalar.length <= output.data.Length
    modifies output.data
    ensures result == output
    ensures forall i :: 0 <= i < scalar.length ==>
              output.data[i] == Scale(scalar.data[i], old(vector.data[i]))
    ensures forall i :: scalar.length <= i < output.data.Length ==> output.data[i] == old(output.data[i])
  {
    for i := 0 to scalar.length
      invariant forall k :: 0 <= k < i ==> output.data[k] == Scale(scalar.data[k], old(vector.data[k]))
      invariant forall k :: i <= k < output.data.Length ==> output.data[k] == old(output.data[k])
      invariant forall k :: i <= k < scalar.length ==> vector.data[k] == old(vector.data[k])
    {
      output.data[i] := Scale(scalar.data[i], vector.data[i]);
    }
    result := output;
  }

  /** Scale(float, ...): output[i] = s * vector[i]. */
  method ScaleUniform(s: real, vector: BComponent<Vector3>, output: BComponent<Vector3>)
    returns (result: BComponent<Vector3>)
    requires vector.Valid() && vector.length <= output.data.Length
    modifies output.data
    ensures result == output
    ensures forall i :: 0 <= i < vector.length ==> output.data[i] == Scale(s, old(vector.data[i]))
    ensures forall i :: vector.length <= i < output.data.Length ==> output.data[i] == old(output.data[i])
  {
    for i := 0 to vector.length
      invariant forall k :: 0 <= k < i ==> output.data[k] == Scale(s, old(vector.data[k]))
      invariant forall k :: i <= k < output.data.Length ==> output.data[k] == old(output.data[k])
      invariant forall k :: i <= k < vector.length ==> vector.data[k] == old(vector.data[k])
    {
      output.data[i] := Scale(s, vector.data[i]);
    }
    result := output;
  }

  /** Normalize: output[i] = vector[i].normalized. */
  method Normalize(vector: BComponent<Vector3>, output: BComponent<Vector3>, sqrt: real -> real)
    returns (result: BComponent<Vector3>)
    requires vector.Valid() && vector.length <= output.data.Length
    modifies output.data
    ensures result == output
    ensures forall i :: 0 <= i < vector.length ==> output.data[i] == Normalized(old(vector.data[i]), sqrt)
    ensures forall i :: vector.length <= i < output.data.Length ==> output.data[i] == old(output.data[i])
  {
    for i := 0 to vector.length
      invariant forall k :: 0 <= k < i ==> output.data[k] == Normalized(old(vector.data[k]), sqrt)
      invariant forall k :: i <= k < output.data.Length ==> output.data[k] == old(output.data[k])
      invariant forall k :: i <= k < vector.length ==> vector.data[k] == old(vector.data[k])
    {
      output.data[i] := Normalized(vector.data[i], sqrt);
    }
    result := output;
  }

  /** WrapBetween: x and y of output[i] become those of vector[i] wrapped
      into [0, maxX) and [0, maxY); the z of output[i] is left as it was. */
  method WrapBetween(maxX: real, maxY: real, vector: BComponent<Vector3>, output: BComponent<Vector3>)
    returns (result: BComponent<Vector3>)
    requires maxX > 0.0 && maxY > 0.0
    requires vector.Valid() && vector.length <= output.data.Length
    modifies output.data
    ensures result == output
    ensures forall i :: 0 <= i < vector.length ==>
              output.data[i] == Vector3(Repeat(old(vector.data[i]).x, maxX),
                                        Repeat(old(vector.data[i]).y, maxY),
                                        old(output.data[i]).z)
    ensures forall i :: vector.length <= i < output.data.Length ==> output.data[i] == old(output.data[i])
  {
    for i := 0 to vector.length
      invariant forall k :: 0 <= k < i ==>
                  output.data[k] == Vector3(Repeat(old(vector.data[k]).x, maxX),
                                            Repeat(old(vector.data[k]).y, maxY),
                                            old(output.data[k]).z)
      invariant forall k :: i <= k < output.data.Length ==> output.data[k] == old(output.data[k])
      invariant forall k :: i <= k < vector.length ==> vector.data[k] == old(vector.data[k])
    {
      output.data[i] := output.data[i].(x := Repeat(vector.data[i].x, maxX));
      output.data[i] := output.data[i].(y := Repeat(vector.data[i].y, maxY));
    }
    result := output;
  }

  // ---------------------------------------------------------------------------
  // Kernels composed

  /** Sub undoes Sum: adding right into output and then taking right away
      again leaves output holding left. */
  method SumThenSub(left: BComponent<Vector3>, right: BComponent<Vector3>, output: BComponent<Vector3>)
    requires left.Valid() && right.Valid() && left.length == right.length && left.length <= output.data.Length
    requires output.data != right.data
    modifies output.data
    ensures forall i :: 0 <= i < left.length ==> output.data[i] == old(left.data[i])
  {
    var sumOutcome := Sum(left, right, output);
    var view := new BComponent(output.data, left.length);
    var subOutcome := Sub(view, right, output);
  }

  /** Scaling by s and then by 1 / s gives every vector back. */
  method ScaleThenUnscale(s: real, vector: BComponent<Vector3>, output: BComponent<Vector3>)
    requires s != 0.0 && vector.Valid() && vector.length <= output.data.Length
    modifies output.data
    ensures forall i :: 0 <= i < vector.length ==> output.data[i] == old(vector.data[i])
  {
    var scaled := ScaleUniform(s, vector, output);
    var n := vector.length;
    var view := new BComponent(output.data, n);
    var back := ScaleUniform(1.0 / s, view, output);
    forall i | 0 <= i < n
      ensures output.data[i] == old(vector.data[i])
    {
      ScaleInverse(s, old(vector.data[i]));
    }
  }
}
