/**
  The distributed kernel of mpi_vector_operations.c: the local loops each rank
  runs on its block, the printing of a block-distributed vector, and the whole
  run of `main` from the order check to the reduced dot product.
 */
module MpiKernel {
  import opened Wrappers
  import opened Vectors
  import opened Partition
  import opened Collective
  import opened Preview

  /**
    `Parallel_dot_product`: the left-to-right sum of `x[i] * y[i]` over the
    first `localN` elements, 0 when `localN <= 0`. Neither array is written.
   */
  method ParallelDotProduct(localX: array<real>, localY: array<real>, localN: int)
    returns (localDot: real)
    requires localN <= localX.Length && localN <= localY.Length
    ensures localN <= 0 ==> localDot == 0.0
    ensures localN >= 0 ==> localDot == Dot(localX[..localN], localY[..localN])
  {
    localDot := 0.0;
    var i := 0;
    while i < localN
      invariant 0 <= i <= (if localN < 0 then 0 else localN)
      invariant localDot == Dot(localX[..i], localY[..i])
    {
      assert localX[..i + 1][..i] == localX[..i];
      assert localY[..i + 1][..i] == localY[..i];
      localDot := localDot + localX[i] * localY[i];
      i := i + 1;
    }
  }

  /**
    `Parallel_scalar_multiplication`: the first `localN` elements are
    multiplied by `scalar` in place and every other element is left as it was.
   */
  method ParallelScalarMultiplication(localA: array<real>, localN: int, scalar: real)
    requires localN <= localA.Length
    modifies localA
    ensures forall i :: 0 <= i < localN ==> localA[i] == old(localA[i]) * scalar
    ensures forall i :: 0 <= i < localA.Length && localN <= i ==> localA[i] == old(localA[i])
    ensures localN >= 0 ==> localA[..localN] == Scale(old(localA[..localN]), scalar)
  {
    var i := 0;
    while i < localN
      invariant 0 <= i <= (if localN < 0 then 0 else localN)
      invariant forall j :: 0 <= j < i ==> localA[j] == old(localA[j]) * scalar
      invariant forall j :: i <= j < localA.Length ==> localA[j] == old(localA[j])
    {
      localA[i] := localA[i] * scalar;
      i := i + 1;
    }
    if localN >= 0 {
      assert forall j :: 0 <= j < localN ==>
        localA[..localN][j] == Scale(old(localA[..localN]), scalar)[j];
    }
  }

  /** The blocks after every rank has multiplied its own block by `s`. */
  function ScaleBlocks(blocks: seq<seq<real>>, s: real): (scaled: seq<seq<real>>)
    ensures |scaled| == |blocks|
    ensures forall r :: 0 <= r < |blocks| ==> |scaled[r]| == |blocks[r]|
  {
    seq(|blocks|, r requires 0 <= r < |blocks| => Scale(blocks[r], s))
  }

  /** Scaling every block and gathering is scaling the gathered vector. */
  lemma {:induction false} GatherScaleBlocks(blocks: seq<seq<real>>, s: real)
    ensures Gather(ScaleBlocks(blocks, s)) == Scale(Gather(blocks), s)
    decreases |blocks|
  {
    if |blocks| != 0 {
      var k := |blocks| - 1;
      assert ScaleBlocks(blocks, s)[..k] == ScaleBlocks(blocks[..k], s);
      GatherScaleBlocks(blocks[..k], s);
      ScaleAppend(Gather(blocks[..k]), blocks[k], s);
    }
  }

  /**
    The decisions after rank 0 tries to allocate its gather buffer in
    `Print_vector`. The program lets rank 0 exit alone (see
    `Findings.PrintBufferDecisionsAsWritten`); this model routes the root's
    flag through the collective check instead, so all ranks agree.
   */
  function PrintBufferDecisions(commSz: int, rootGotBuffer: bool): (d: seq<Decision>)
    requires commSz >= 1
    ensures |d| == commSz
    ensures forall r :: 0 <= r < commSz ==> (d[r].Abort? <==> !rootGotBuffer)
    ensures forall r :: 0 <= r < commSz && d[r].Abort? ==> (d[r].reportsError <==> r == 0)
  {
    var flags := seq(commSz, r => if r == 0 && !rootGotBuffer then 0 else 1);
    assert flags[0] == (if rootGotBuffer then 1 else 0);
    CheckForError(flags)
  }

  /**
    `Print_vector` at the root: gather the blocks and show the preview indices
    of the full vector, or stop when the gather buffer cannot be allocated.
    The shown value at position `k` is the element held by the rank that owns
    the `k`-th preview index.
   */
  function PrintBlockVector(blocks: seq<seq<real>>, localN: nat, n: int, rootGotBuffer: bool)
    : (shown: Option<seq<real>>)
    requires |blocks| >= 1 && localN >= 1 && Uniform(blocks, localN)
    requires n == |blocks| * localN
    ensures shown.Some? <==> rootGotBuffer
    ensures shown.Some? ==>
              |shown.value| == |PreviewIndices(n)| &&
              forall k :: 0 <= k < |shown.value| ==>
                shown.value[k] == OwnedElement(blocks, localN, PreviewIndices(n)[k])
  {
    if PrintBufferDecisions(|blocks|, rootGotBuffer)[0].Abort? then None
    else
      var b := Gather(blocks);
      var idx := PreviewIndices(n);
      GatherLength(blocks, localN);
      var values := seq(|idx|, k requires 0 <= k < |idx| => b[idx[k]]);
      assert forall k :: 0 <= k < |idx| ==> values[k] == OwnedElement(blocks, localN, idx[k]) by {
        forall k | 0 <= k < |idx| ensures values[k] == OwnedElement(blocks, localN, idx[k]) {
          GatherElement(blocks, localN, idx[k]);
        }
      }
      Some(values)
  }

  /** How a run of the distributed program ends. */
  datatype MpiOutcome =
    | InvalidOrder
    | AllocationAborted
    | Completed(scaledX: seq<real>, scaledY: seq<real>, globalDot: real)

  /**
    `main` of the distributed program. `x` and `y` are the two logical vectors
    the ranks generate, rank `r` producing block `r` of each; they and whether
    each rank obtained its two buffers are inputs. Order check, collective
    allocation check, scaling of both blocks on every rank, local dot
    products, then the sum reduction at rank 0.
   */
  function RunDistributed(n: int, commSz: int, s: real, gotX: seq<bool>, gotY: seq<bool>,
                          x: seq<real>, y: seq<real>): (r: MpiOutcome)
    requires commSz >= 1 && |gotX| == commSz && |gotY| == commSz
    requires n > 0 && n % commSz == 0 ==> |x| == n && |y| == n
    ensures r.InvalidOrder? <==> !(n > 0 && n % commSz == 0)
    ensures r.AllocationAborted? <==>
              n > 0 && n % commSz == 0 &&
              exists q :: 0 <= q < commSz && !(gotX[q] && gotY[q])
    ensures r.Completed? ==> |r.scaledX| == n && |r.scaledY| == n
  {
    match LocalOrder(n, commSz)
    case None => InvalidOrder
    case Some(localN) =>
      if AllocateLocalVectors(gotX, gotY)[0].Abort? then AllocationAborted
      else
        var xs := Blocks(x, commSz, localN);
        var ys := Blocks(y, commSz, localN);
        GatherOfBlocks(x, commSz, localN);
        GatherOfBlocks(y, commSz, localN);
        ScaleAndReduce(xs, ys, s)
  }

  /**
    The part of `main` after the checks: every rank scales both of its blocks,
    computes its local dot product, and rank 0 receives the sum of them.
   */
  function ScaleAndReduce(xs: seq<seq<real>>, ys: seq<seq<real>>, s: real): (r: MpiOutcome)
    requires SameShape(xs, ys)
    ensures r.Completed?
    ensures |r.scaledX| == |Gather(xs)| && |r.scaledY| == |Gather(ys)|
  {
    var sx := ScaleBlocks(xs, s);
    var sy := ScaleBlocks(ys, s);
    GatherScaleBlocks(xs, s);
    GatherScaleBlocks(ys, s);
    Completed(Gather(sx), Gather(sy), Sum(PartialDots(sx, sy)))
  }

  /**
    With a valid order and every buffer obtained, the run completes, and it is
    the scale-and-reduce phase applied to the blocks of `x` and `y`.
   */
  lemma RunDistributedCompletes(n: int, commSz: int, s: real, gotX: seq<bool>, gotY: seq<bool>,
                                x: seq<real>, y: seq<real>)
    returns (xs: seq<seq<real>>, ys: seq<seq<real>>)
    requires commSz >= 1 && |gotX| == commSz && |gotY| == commSz
    requires n > 0 && n % commSz == 0 && |x| == n && |y| == n
    requires forall q :: 0 <= q < commSz ==> gotX[q] && gotY[q]
    ensures RunDistributed(n, commSz, s, gotX, gotY, x, y).Completed?
    ensures SameShape(xs, ys) && Gather(xs) == x && Gather(ys) == y
    ensures RunDistributed(n, commSz, s, gotX, gotY, x, y) == ScaleAndReduce(xs, ys, s)
  {
    var localN := LocalOrder(n, commSz).value;
    assert AllocateLocalVectors(gotX, gotY)[0].Proceed?;
    xs := Blocks(x, commSz, localN);
    ys := Blocks(y, commSz, localN);
    GatherOfBlocks(x, commSz, localN);
    GatherOfBlocks(y, commSz, localN);
  }

  /** The gathered scaled vectors are the scaled generated vectors. */
  lemma ReportedVectorsAreScaled(n: int, commSz: int, s: real, gotX: seq<bool>, gotY: seq<bool>,
                                 x: seq<real>, y: seq<real>)
    requires commSz >= 1 && |gotX| == commSz && |gotY| == commSz
    requires n > 0 && n % commSz == 0 && |x| == n && |y| == n
    requires forall q :: 0 <= q < commSz ==> gotX[q] && gotY[q]
    ensures RunDistributed(n, commSz, s, gotX, gotY, x, y).scaledX == Scale(x, s)
    ensures RunDistributed(n, commSz, s, gotX, gotY, x, y).scaledY == Scale(y, s)
  {
    var xs, ys := RunDistributedCompletes(n, commSz, s, gotX, gotY, x, y);
    GatherScaleBlocks(xs, s);
    GatherScaleBlocks(ys, s);
  }

  /**
    Because both vectors are scaled before the dot product, the value rank 0
    reports (the sum of the ranks' local dot products) is the dot product of
    the scaled vectors, which is `s * s` times the dot product of the
    generated ones. This holds over reals; the program's double reduction
    may round differently.
   */
  lemma ReportedDotIsScaledDot(n: int, commSz: int, s: real, gotX: seq<bool>, gotY: seq<bool>,
                               x: seq<real>, y: seq<real>)
    requires commSz >= 1 && |gotX| == commSz && |gotY| == commSz
    requires n > 0 && n % commSz == 0 && |x| == n && |y| == n
    requires forall q :: 0 <= q < commSz ==> gotX[q] && gotY[q]
    ensures RunDistributed(n, commSz, s, gotX, gotY, x, y).globalDot
              == Dot(Scale(x, s), Scale(y, s))
              == s * s * Dot(x, y)
  {
    var xs, ys := RunDistributedCompletes(n, commSz, s, gotX, gotY, x, y);
    var sx, sy := ScaleBlocks(xs, s), ScaleBlocks(ys, s);
    ReducedDotIsGlobalDot(sx, sy);
    GatherScaleBlocks(xs, s);
    GatherScaleBlocks(ys, s);
    DotScale(x, y, s, s);
  }

  /** The worked example: n = 4 over two ranks, x = [1,2,3,4], y = [4,3,2,1], s = 2. */
  lemma DistributedExample()
    ensures RunDistributed(4, 2, 2.0, [true, true], [true, true], [1.0, 2.0, 3.0, 4.0],
                           [4.0, 3.0, 2.0, 1.0]).globalDot == 80.0
  {
    var x := [1.0, 2.0, 3.0, 4.0];
    var y := [4.0, 3.0, 2.0, 1.0];
    assert x[..3] == [1.0, 2.0, 3.0] && x[..3][..2] == [1.0, 2.0];
    assert x[..3][..2][..1] == [1.0] && |x[..3][..2][..1][..0]| == 0;
    assert y[..3] == [4.0, 3.0, 2.0] && y[..3][..2] == [4.0, 3.0];
    assert y[..3][..2][..1] == [4.0] && |y[..3][..2][..1][..0]| == 0;
    assert Dot(x[..1], y[..1]) == 4.0;
    assert Dot(x[..2], y[..2]) == 10.0 by { assert x[..2][..1] == [1.0] && y[..2][..1] == [4.0]; }
    assert Dot(x[..3], y[..3]) == 16.0 by { assert x[..3][..2] == x[..2] && y[..3][..2] == y[..2]; }
    assert Dot(x, y) == 20.0;
    ReportedDotIsScaledDot(4, 2, 2.0, [true, true], [true, true], x, y);
  }
}
