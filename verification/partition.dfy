/**
  The integer bookkeeping of the block distribution in mpi_vector_operations.c:
  validating the order against the number of processes, the block each rank
  owns, and the gather that rebuilds the full vector from the blocks.
 */
module Partition {
  import opened Wrappers

  /**
    The order check of `main`: `n` is accepted only when it is positive and
    the number of processes divides it; the accepted result is `local_n`.
    `commSz >= 1` is what the MPI runtime guarantees of a communicator size.
   */
  function LocalOrder(n: int, commSz: int): (r: Option<nat>)
    requires commSz >= 1
    ensures r.Some? <==> n > 0 && n % commSz == 0
    ensures r.Some? ==> r.value >= 1 && r.value * commSz == n
  {
    if n <= 0 || n % commSz != 0 then None else Some(n / commSz)
  }

  /** Index `i` lies in the block `[r * localN, (r + 1) * localN)` owned by rank `r`. */
  predicate InBlock(i: int, r: int, localN: int)
  {
    r * localN <= i < (r + 1) * localN
  }

  /** Multiplication by a positive factor is monotonic. */
  lemma MulMonotonic(a: int, b: int, c: int)
    requires a <= b && c >= 0
    ensures a * c <= b * c
  {
  }

  /** `k + 1` blocks of `n` elements are `k` blocks and one more. */
  lemma MulSucc(k: int, n: int)
    ensures (k + 1) * n == k * n + n
  {
  }

  /**
    The blocks of the ranks `0 .. commSz - 1` partition `[0, commSz * localN)`:
    every index lies in exactly one of them, the one of rank `i / localN`.
   */
  lemma {:induction false} BlocksPartition(i: int, r: int, commSz: int, localN: int)
    requires commSz >= 1 && localN >= 1
    requires 0 <= i < commSz * localN
    ensures 0 <= i / localN < commSz
    ensures (0 <= r < commSz && InBlock(i, r, localN)) <==> r == i / localN
  {
    var q := i / localN;
    DivModSplit(i, localN);
    MulSucc(q, localN);
    assert q * localN <= i < (q + 1) * localN;
    if q >= commSz {
      MulMonotonic(commSz, q, localN);
      assert false;
    }
    if r < q && InBlock(i, r, localN) {
      MulMonotonic(r + 1, q, localN);
      assert false;
    }
    if r > q && InBlock(i, r, localN) {
      MulMonotonic(q + 1, r, localN);
      assert false;
    }
  }

  /** Every block has the same length `localN`. */
  predicate Uniform(blocks: seq<seq<real>>, localN: int)
  {
    forall r :: 0 <= r < |blocks| ==> |blocks[r]| == localN
  }

  /** Rank by rank, the blocks of two vectors have the same lengths. */
  predicate SameShape(xs: seq<seq<real>>, ys: seq<seq<real>>)
  {
    |xs| == |ys| && forall r :: 0 <= r < |xs| ==> |xs[r]| == |ys[r]|
  }

  /**
    MPI_Gather at the root: the blocks concatenated in rank order. With one
    process the gathered buffer is that process's block.
   */
  function Gather(blocks: seq<seq<real>>): (g: seq<real>)
    ensures |blocks| == 1 ==> g == blocks[0]
  {
    if |blocks| == 0 then [] else Gather(blocks[..|blocks| - 1]) + blocks[|blocks| - 1]
  }

  /** Every value any rank holds reaches the root, as often as the rank holds it. */
  lemma {:induction false} GatherKeepsValues(blocks: seq<seq<real>>, r: int)
    requires 0 <= r < |blocks|
    ensures multiset(blocks[r]) <= multiset(Gather(blocks))
    decreases |blocks|
  {
    var k := |blocks| - 1;
    assert multiset(Gather(blocks)) == multiset(Gather(blocks[..k])) + multiset(blocks[k]);
    if r < k {
      GatherKeepsValues(blocks[..k], r);
      assert blocks[..k][r] == blocks[r];
    }
  }

  /** A gather of `|blocks|` blocks of `localN` elements has `|blocks| * localN` elements. */
  lemma {:induction false} GatherLength(blocks: seq<seq<real>>, localN: nat)
    requires Uniform(blocks, localN)
    ensures |Gather(blocks)| == |blocks| * localN
    decreases |blocks|
  {
    if |blocks| != 0 {
      var k := |blocks| - 1;
      var init := blocks[..k];
      UniformPrefix(blocks, localN, k);
      GatherLength(init, localN);
      assert Gather(blocks) == Gather(init) + blocks[k];
      assert |blocks[k]| == localN;
      MulSucc(k, localN);
    }
  }

  /** A prefix of uniform blocks is uniform. */
  lemma UniformPrefix(blocks: seq<seq<real>>, localN: int, k: int)
    requires Uniform(blocks, localN) && 0 <= k <= |blocks|
    ensures Uniform(blocks[..k], localN)
  {
    forall r | 0 <= r < k
      ensures |blocks[..k][r]| == localN
    {
      assert blocks[..k][r] == blocks[r];
    }
  }

  /**
    Element `j` of rank `r`'s block sits at offset `r * localN + j` of the
    gathered vector: the ranks before `r` contribute `r * localN` elements.
   */
  lemma {:induction false} GatherAt(blocks: seq<seq<real>>, localN: nat, r: int, j: int)
    requires Uniform(blocks, localN)
    requires 0 <= r < |blocks| && 0 <= j < localN
    ensures r * localN + j < |Gather(blocks)|
    ensures Gather(blocks)[r * localN + j] == blocks[r][j]
    decreases |blocks|
  {
    var k := |blocks| - 1;
    var init := blocks[..k];
    var g := Gather(init);
    UniformPrefix(blocks, localN, k);
    GatherLength(init, localN);
    assert Gather(blocks) == g + blocks[k];
    if r < k {
      GatherAt(init, localN, r, j);
      assert init[r] == blocks[r];
    } else {
      assert r * localN == |g|;
    }
  }

  /** Element `j` of rank `r`'s block is at offset `r * localN + j` of `g`. */
  predicate PlacedAt(g: seq<real>, blocks: seq<seq<real>>, localN: int, r: int, j: int)
  {
    0 <= r < |blocks| && 0 <= j < |blocks[r]| &&
    0 <= r * localN + j < |g| && g[r * localN + j] == blocks[r][j]
  }

  /**
    The gathered vector has length `|blocks| * localN`, and rank `r`'s block
    occupies offsets `r * localN .. (r + 1) * localN` of it.
   */
  lemma GatherLayout(blocks: seq<seq<real>>, localN: nat)
    requires Uniform(blocks, localN)
    ensures |Gather(blocks)| == |blocks| * localN
    ensures forall r, j :: 0 <= r < |blocks| && 0 <= j < localN ==>
              PlacedAt(Gather(blocks), blocks, localN, r, j)
  {
    GatherLength(blocks, localN);
    forall r, j | 0 <= r < |blocks| && 0 <= j < localN
      ensures PlacedAt(Gather(blocks), blocks, localN, r, j)
    {
      GatherAt(blocks, localN, r, j);
    }
  }

  /** Element `i` of the full vector, read from the block of the rank that owns it. */
  function OwnedElement(blocks: seq<seq<real>>, localN: nat, i: int): real
    requires localN >= 1 && |blocks| >= 1 && Uniform(blocks, localN)
    requires 0 <= i < |blocks| * localN
  {
    BlocksPartition(i, i / localN, |blocks|, localN);
    blocks[i / localN][i % localN]
  }

  /** Element `i` of the gathered vector is the one its owning rank holds. */
  lemma GatherElement(blocks: seq<seq<real>>, localN: nat, i: int)
    requires localN >= 1 && |blocks| >= 1 && Uniform(blocks, localN)
    requires 0 <= i < |blocks| * localN
    ensures |Gather(blocks)| == |blocks| * localN
    ensures Gather(blocks)[i] == OwnedElement(blocks, localN, i)
  {
    var r, j := i / localN, i % localN;
    GatherLength(blocks, localN);
    BlocksPartition(i, r, |blocks|, localN);
    DivModSplit(i, localN);
    GatherAt(blocks, localN, r, j);
  }

  /** The block of a full vector that rank `r` owns. */
  function Block(v: seq<real>, r: int, commSz: int, localN: nat): (b: seq<real>)
    requires 0 <= r < commSz && |v| == commSz * localN
    ensures |b| == localN
  {
    MulMonotonic(r + 1, commSz, localN);
    v[r * localN .. (r + 1) * localN]
  }

  /** The blocks of all ranks, in rank order. */
  function Blocks(v: seq<real>, commSz: nat, localN: nat): (bs: seq<seq<real>>)
    requires |v| == commSz * localN
    ensures |bs| == commSz && Uniform(bs, localN)
  {
    seq(commSz, r requires 0 <= r < commSz => Block(v, r, commSz, localN))
  }

  /** Element `j` of rank `r`'s block is element `r * localN + j` of the full vector. */
  lemma BlockElement(v: seq<real>, commSz: nat, localN: nat, r: int, j: int)
    requires |v| == commSz * localN
    requires 0 <= r < commSz && 0 <= j < localN
    ensures r * localN + j < |v|
    ensures Blocks(v, commSz, localN)[r][j] == v[r * localN + j]
  {
    MulMonotonic(r + 1, commSz, localN);
  }

  /** Index `i` splits into its owning rank's offset and its position in the block. */
  lemma DivModSplit(i: int, localN: int)
    requires 0 <= i && localN >= 1
    ensures 0 <= i % localN < localN
    ensures i == (i / localN) * localN + i % localN
  {
  }

  /** Splitting a gathered vector into blocks gives back what every rank held. */
  lemma BlocksOfGather(blocks: seq<seq<real>>, localN: nat)
    requires Uniform(blocks, localN)
    ensures |Gather(blocks)| == |blocks| * localN
    ensures Blocks(Gather(blocks), |blocks|, localN) == blocks
  {
    GatherLength(blocks, localN);
    var g := Gather(blocks);
    var bs := Blocks(g, |blocks|, localN);
    forall r | 0 <= r < |blocks|
      ensures bs[r] == blocks[r]
    {
      forall j | 0 <= j < localN
        ensures bs[r][j] == blocks[r][j]
      {
        GatherAt(blocks, localN, r, j);
        BlockElement(g, |blocks|, localN, r, j);
      }
    }
  }

  /** Gathering the blocks of a vector rebuilds the vector. */
  lemma {:induction false} GatherOfBlocks(v: seq<real>, commSz: nat, localN: nat)
    requires |v| == commSz * localN
    ensures Gather(Blocks(v, commSz, localN)) == v
  {
    var bs := Blocks(v, commSz, localN);
    GatherLength(bs, localN);
    forall i | 0 <= i < |v|
      ensures Gather(bs)[i] == v[i]
    {
      var r, j := i / localN, i % localN;
      BlocksPartition(i, r, commSz, localN);
      DivModSplit(i, localN);
      BlockElement(v, commSz, localN, r, j);
      GatherAt(bs, localN, r, j);
    }
  }
}
