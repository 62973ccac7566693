/**
  The sequential program vector_add.c: the order check, the allocation of
  the three buffers, and the elementwise sum.
 */
module VectorAdd {
  import opened Wrappers
  import opened Vectors
  import Partition

  /**
    The order check of `main` and of `Read_n`: a non-positive order is
    rejected (the program reports it and exits with status -1).
   */
  function AcceptOrder(n: int): (r: Option<nat>)
    ensures r.Some? <==> n > 0
    ensures r.Some? ==> r.value == n
  {
    if n <= 0 then None else Some(n)
  }

  /** The sequential check is the distributed one with a single process. */
  lemma AcceptOrderIsSingleProcessCase(n: int)
    ensures AcceptOrder(n) == Partition.LocalOrder(n, 1)
  {
  }

  /**
    `Vector_sum`: `z[i] := x[i] + y[i]` for `i` in `[0, n)`, in increasing
    order. Each step reads only index `i`, so the result is the sum of the
    original inputs even when `z` is `x` or `y`; when it is neither, the
    inputs are left untouched. Elements of `z` at or beyond `n` keep their
    values.
   */
  method VectorSum(x: array<real>, y: array<real>, z: array<real>, n: int)
    requires n <= x.Length && n <= y.Length && n <= z.Length
    modifies z
    ensures forall i :: 0 <= i < n ==> z[i] == old(x[i]) + old(y[i])
    ensures forall i :: 0 <= i < z.Length && n <= i ==> z[i] == old(z[i])
    ensures z != x ==> x[..] == old(x[..])
    ensures z != y ==> y[..] == old(y[..])
    ensures n >= 0 ==> z[..n] == Add(old(x[..n]), old(y[..n]))
  {
    var i := 0;
    while i < n
      invariant 0 <= i <= (if n < 0 then 0 else n)
      invariant forall j :: 0 <= j < i ==> z[j] == old(x[j]) + old(y[j])
      invariant forall j :: i <= j < z.Length ==> z[j] == old(z[j])
      invariant forall j :: i <= j < x.Length ==> x[j] == old(x[j])
      invariant forall j :: i <= j < y.Length ==> y[j] == old(y[j])
      invariant z != x ==> x[..] == old(x[..])
      invariant z != y ==> y[..] == old(y[..])
    {
      z[i] := x[i] + y[i];
      i := i + 1;
    }
    if n >= 0 {
      assert forall j :: 0 <= j < n ==> z[..n][j] == Add(old(x[..n]), old(y[..n]))[j];
    }
  }

  /** A step of the sequential program that touches the vectors. */
  datatype Step = AllocateVectors | GenerateVectors | SumVectors | PrintVectors

  /** How the sequential program ends: exit status -1, or the computed sum. */
  datatype Exit = Failed | Succeeded(sum: seq<real>)

  /** The steps performed, in order, and how the run ended. */
  datatype Run = Run(steps: seq<Step>, exit: Exit)

  /**
    `main` of the sequential program. The order `n` is the parsed argument;
    `gotX`, `gotY`, `gotZ` say whether each `malloc` succeeded; `x` and `y`
    are the values `Generate_vector` produces.
   */
  function RunVectorAdd(n: int, gotX: bool, gotY: bool, gotZ: bool, x: seq<real>, y: seq<real>)
    : (r: Run)
    requires n > 0 ==> |x| == n && |y| == n
    ensures r.exit.Succeeded? <==> n > 0 && gotX && gotY && gotZ
    ensures n <= 0 ==> AllocateVectors !in r.steps && SumVectors !in r.steps
    ensures !(gotX && gotY && gotZ) ==> GenerateVectors !in r.steps && SumVectors !in r.steps
    ensures r.exit.Succeeded? ==>
              |r.exit.sum| == n && forall i :: 0 <= i < n ==> r.exit.sum[i] == x[i] + y[i]
  {
    match AcceptOrder(n)
    case None => Run([], Failed)
    case Some(_) =>
      if !(gotX && gotY && gotZ) then Run([AllocateVectors], Failed)
      else Run([AllocateVectors, GenerateVectors, SumVectors, PrintVectors], Succeeded(Add(x, y)))
  }

  /** Swapping the two inputs does not change the run or the computed sum. */
  lemma RunVectorAddCommutative(n: int, gotX: bool, gotY: bool, gotZ: bool, x: seq<real>, y: seq<real>)
    requires n > 0 ==> |x| == n && |y| == n
    ensures RunVectorAdd(n, gotX, gotY, gotZ, x, y) == RunVectorAdd(n, gotX, gotY, gotZ, y, x)
  {
  }

  /** The worked example: n = 4, x = [1,2,3,4], y = [5,6,7,8] gives [6,8,10,12]. */
  lemma SequentialExample()
    ensures RunVectorAdd(4, true, true, true, [1.0, 2.0, 3.0, 4.0], [5.0, 6.0, 7.0, 8.0]).exit
            == Succeeded([6.0, 8.0, 10.0, 12.0])
  {
  }
}
