/**
  The collective decisions and reductions of mpi_vector_operations.c, with the
  MPI collectives replaced by pure functions over the per-rank values (index
  `r` of a sequence is rank `r`'s contribution).
 */
module Collective {
  import opened Vectors
  import opened Partition

  /** MPI_Allreduce with MPI_MIN over one value per rank. */
  function MinOf(flags: seq<int>): (m: int)
    requires |flags| > 0
    ensures m in flags
    ensures forall q :: 0 <= q < |flags| ==> m <= flags[q]
  {
    if |flags| == 1 then flags[0]
    else
      var m' := MinOf(flags[..|flags| - 1]);
      if flags[|flags| - 1] < m' then flags[|flags| - 1] else m'
  }

  /** What one rank does after a collective error check. */
  datatype Decision = Proceed | Abort(reportsError: bool)

  /**
    `Check_for_error`: every rank contributes its `local_ok`; the minimum is
    shared with all ranks, and a minimum of 0 makes every rank abort, rank 0
    alone writing the message.
   */
  function CheckForError(localOks: seq<int>): (d: seq<Decision>)
    requires |localOks| > 0
    ensures |d| == |localOks|
    ensures forall r :: 0 <= r < |d| ==>
              (d[r].Abort? <==>
                 (exists q :: 0 <= q < |localOks| && localOks[q] == 0) &&
                 (forall q :: 0 <= q < |localOks| ==> localOks[q] >= 0))
    ensures forall r :: 0 <= r < |d| && d[r].Abort? ==> (d[r].reportsError <==> r == 0)
  {
    var ok := MinOf(localOks);
    seq(|localOks|, r => if ok == 0 then Abort(r == 0) else Proceed)
  }

  /** A local flag as the program sets it: 1 for success, 0 for failure. */
  predicate IsFlag(v: int)
  {
    v == 0 || v == 1
  }

  /**
    With 0/1 flags the check is all-or-nothing: either every rank proceeds,
    which happens exactly when every flag is 1, or every rank aborts.
   */
  lemma CheckForErrorAllOrNothing(localOks: seq<int>, r: int, q: int)
    requires |localOks| > 0
    requires forall p :: 0 <= p < |localOks| ==> IsFlag(localOks[p])
    requires 0 <= r < |localOks| && 0 <= q < |localOks|
    ensures CheckForError(localOks)[r].Proceed? <==>
              (forall p :: 0 <= p < |localOks| ==> localOks[p] == 1)
    ensures CheckForError(localOks)[r].Proceed? == CheckForError(localOks)[q].Proceed?
  {
  }

  /**
    `Allocate_vectors` of the distributed program: rank `r`'s flag is 1 when
    both of its buffers were obtained, and the flags go through the check.
   */
  function AllocateLocalVectors(gotX: seq<bool>, gotY: seq<bool>): (d: seq<Decision>)
    requires |gotX| == |gotY| > 0
    ensures |d| == |gotX|
    ensures forall r :: 0 <= r < |d| ==>
              (d[r].Proceed? <==> forall q :: 0 <= q < |gotX| ==> gotX[q] && gotY[q])
    ensures forall r :: 0 <= r < |d| && d[r].Abort? ==> (d[r].reportsError <==> r == 0)
  {
    var flags := seq(|gotX|, q requires 0 <= q < |gotX| => if gotX[q] && gotY[q] then 1 else 0);
    assert forall q :: 0 <= q < |gotX| ==> (flags[q] == 1 <==> gotX[q] && gotY[q]);
    CheckForError(flags)
  }

  /** Each rank's local dot product of its blocks. */
  function PartialDots(xs: seq<seq<real>>, ys: seq<seq<real>>): (p: seq<real>)
    requires SameShape(xs, ys)
    ensures |p| == |xs|
  {
    seq(|xs|, r requires 0 <= r < |xs| => Dot(xs[r], ys[r]))
  }

  /**
    MPI_Reduce with MPI_SUM of the partial dot products is the dot product of
    the gathered vectors (over reals; a floating-point reduction may differ).
   */
  lemma {:induction false} ReducedDotIsGlobalDot(xs: seq<seq<real>>, ys: seq<seq<real>>)
    requires SameShape(xs, ys)
    ensures |Gather(xs)| == |Gather(ys)|
    ensures Sum(PartialDots(xs, ys)) == Dot(Gather(xs), Gather(ys))
    decreases |xs|
  {
    if |xs| != 0 {
      var k := |xs| - 1;
      ReducedDotIsGlobalDot(xs[..k], ys[..k]);
      assert PartialDots(xs, ys)[..k] == PartialDots(xs[..k], ys[..k]);
      DotAppend(Gather(xs[..k]), Gather(ys[..k]), xs[k], ys[k]);
    }
  }
}
