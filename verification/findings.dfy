/**
  Two places where mpi_vector_operations.c does not do what it evidently
  intends, each as written and as corrected. The `i_seed` argument of
  `Generate_vector` exists to give the two vectors different seeds, and
  `Check_for_error` shows the all-or-nothing pattern the program uses for
  its other allocations.
 */
module Findings {
  import opened Collective

  /** `unsigned int` arithmetic wraps modulo 2^32. */
  const UintModulus: int := 0x1_0000_0000

  /**
    The seed of `Generate_vector` as written: `time + my_rank + i_seed` in
    unsigned arithmetic, with `i_seed` 1 for the first vector and 2 for the
    second.
   */
  function SeedAsWritten(time: nat, rank: nat, salt: nat): (seed: nat)
    ensures seed < UintModulus
  {
    (time + rank + salt) % UintModulus
  }

  /**
    When both calls read the same clock second `time`, rank `r`'s second
    vector and rank `r + 1`'s first vector are seeded identically, so the two
    blocks hold the same numbers.
   */
  lemma SeedsCollide(time: nat, rank: nat)
    ensures SeedAsWritten(time, rank, 2) == SeedAsWritten(time, rank + 1, 1)
  {
  }

  /** A seed that keeps the two vectors of all ranks apart: `time + 2 * rank + salt`. */
  function Seed(time: nat, rank: nat, salt: nat): (seed: nat)
    requires salt == 1 || salt == 2
    ensures seed < UintModulus
  {
    (time + 2 * rank + salt) % UintModulus
  }

  /** Equal residues of two numbers less than the modulus apart means equal numbers. */
  lemma ModInjective(a: int, b: int)
    requires 0 <= a && 0 <= b
    requires a - b < UintModulus && b - a < UintModulus
    requires a % UintModulus == b % UintModulus
    ensures a == b
  {
  }

  /**
    With the corrected seed, no two (rank, vector) pairs share a seed as long
    as there are fewer than 2^31 processes and every call reads the same clock
    second `time`.
   */
  lemma SeedsDistinct(time: nat, commSz: nat, r1: nat, salt1: nat, r2: nat, salt2: nat)
    requires 2 * commSz < UintModulus
    requires r1 < commSz && r2 < commSz
    requires (salt1 == 1 || salt1 == 2) && (salt2 == 1 || salt2 == 2)
    requires r1 != r2 || salt1 != salt2
    ensures Seed(time, r1, salt1) != Seed(time, r2, salt2)
  {
  }

  /**
    `Print_vector` as written: only rank 0 allocates the gather buffer, and
    when that fails rank 0 exits on its own while every other rank goes on
    into `MPI_Gather`.
   */
  function PrintBufferDecisionsAsWritten(commSz: int, rootGotBuffer: bool): (d: seq<Decision>)
    requires commSz >= 1
    ensures |d| == commSz
    ensures forall r :: 0 <= r < commSz ==> (d[r].Abort? <==> r == 0 && !rootGotBuffer)
  {
    seq(commSz, r => if r == 0 && !rootGotBuffer then Abort(true) else Proceed)
  }

  /**
    With two or more processes a failed root allocation splits the ranks:
    rank 0 stops and rank 1 waits in a gather whose root never arrives.
   */
  lemma PrintBufferFailureSplitsRanks(commSz: int)
    requires commSz >= 2
    ensures PrintBufferDecisionsAsWritten(commSz, false)[0].Abort?
    ensures PrintBufferDecisionsAsWritten(commSz, false)[1].Proceed?
  {
  }
}
