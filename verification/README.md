# Parallel vector operations, modelled in Dafny

This project models two small C programs.

- **vector_add.c** is a sequential program. It checks the order `n` of the vectors and allocates three buffers. It fills two of them and adds them elementwise into the third. It then prints a preview of each vector: the whole vector when it is short, otherwise the first ten and the last ten elements.
- **mpi_vector_operations.c** is the block-distributed counterpart. The order `n` must be positive and divisible by the number of processes `comm_sz`. Each rank `r` then owns the block `[r * local_n, (r + 1) * local_n)` of both vectors. Allocation failures are combined by a MIN all-reduce (`Check_for_error`). Every rank scales both of its blocks by `s`. Every rank then computes the dot product of its blocks, and `MPI_Reduce` with `MPI_SUM` adds these at rank 0. `Print_vector` gathers the blocks at rank 0 and prints the preview.

Vector elements are `real`. This abstracts C's `double`: rounding is not modelled. Every identity that regroups a sum therefore holds of exact arithmetic only. The program's floating-point reduction may differ in the last bits.

The MPI collectives become pure functions over one value per rank:
- `MPI_Gather` is the concatenation of the blocks in rank order (`Partition.Gather`).
- `MPI_Reduce(SUM)` is a left-to-right sum (`Vectors.Sum`).
- `MPI_Allreduce(MIN)` is a minimum over the flags (`Collective.MinOf`).

The modules are:
- `Vectors`: the reference definitions (Sum, Dot, Add, Scale) and their algebra.
- `Partition`: the order check, the block ownership, and the gather.
- `Collective`: Check_for_error, the distributed Allocate_vectors, and the sum reduction.
- `Preview`: the indices Print_vector shows.
- `MpiKernel`: the local loops, Print_vector, and `main` of the distributed program.
- `VectorAdd`: the sequential program.
- `Findings`: the two defects described below, each as written and as corrected.

## Model

| member | source | states |
|---|---|---|
| Partition.LocalOrder | mpi_vector_operations.c:61-69 | The order is accepted exactly when `n > 0` and `comm_sz` divides `n`. The accepted `local_n` is at least 1 and `local_n * comm_sz == n`. |
| Partition.BlocksPartition | mpi_vector_operations.c:69 | The blocks of ranks `0 .. comm_sz-1` are disjoint and cover `[0, n)`. Index `i` lies in the block of rank `r` exactly when `r == i / local_n`, and that rank exists. |
| Partition.Gather | mpi_vector_operations.c:180 | MPI_Gather at the root concatenates the blocks in rank order. With one process the gathered buffer is that process's block. |
| Partition.GatherKeepsValues | mpi_vector_operations.c:180 | Every value a rank holds reaches the gathered buffer, with at least its multiplicity in the block. |
| Partition.GatherLength | mpi_vector_operations.c:180 | Gathering `comm_sz` blocks of `local_n` elements gives `comm_sz * local_n` elements. |
| Partition.GatherAt | mpi_vector_operations.c:180 | Element `j` of rank `r`'s block lies within the gathered buffer at offset `r * local_n + j`, because the ranks before `r` contribute `r * local_n` elements. |
| Partition.GatherLayout | mpi_vector_operations.c:180 | The gathered buffer has `comm_sz * local_n` elements, and for every rank `r` and `j < local_n`, element `j` of rank `r`'s block is at offset `r * local_n + j`. |
| Partition.GatherElement | mpi_vector_operations.c:180 | Element `i` of the gathered buffer is element `i % local_n` of the block held by rank `i / local_n`. |
| Partition.Blocks | mpi_vector_operations.c:69 | Splitting a vector of order `comm_sz * local_n` gives `comm_sz` blocks of `local_n` elements each. |
| Partition.BlocksOfGather | mpi_vector_operations.c:180 | Splitting the gathered buffer into blocks gives back every rank's block. |
| Partition.GatherOfBlocks | mpi_vector_operations.c:180 | Gathering the blocks of a vector rebuilds the vector. |
| Vectors.Sum | mpi_vector_operations.c:89 | MPI_Reduce with MPI_SUM is the left-to-right sum of the ranks' values. With one process it is that process's value, and a sum of non-negative values is non-negative. |
| Vectors.SumAppend | mpi_vector_operations.c:89 | The left-to-right sum of a concatenation is the sum of the parts' sums. |
| Vectors.DotAppend | mpi_vector_operations.c:88-89 | The dot product over two concatenated segments is the sum of the two segments' dot products. |
| Vectors.DotSymmetric | mpi_vector_operations.c:215-221 | The dot product does not depend on the order of its two operands. |
| Vectors.DotScaleLeft | mpi_vector_operations.c:82-89 | Scaling only the first operand by `s` scales the dot product by `s`, for vectors of equal length. |
| Vectors.DotScale | mpi_vector_operations.c:82-89 | Scaling the operands by `s` and `t` scales the dot product by `s * t`. |
| Vectors.ScaleAppend | mpi_vector_operations.c:227-231 | Scaling each block separately is scaling their concatenation. |
| Vectors.AddCommutative | vector_add.c:170-171 | Swapping `x` and `y` does not change the elementwise sum. |
| Vectors.ScaleIdentityAndZero | mpi_vector_operations.c:227-231 | Scaling by 1 leaves a vector unchanged. Scaling by 0 makes every element 0. |
| Collective.MinOf | mpi_vector_operations.c:123 | The all-reduced value is one of the ranks' flags and is no larger than any of them. |
| Collective.CheckForError | mpi_vector_operations.c:116-135 | Every rank aborts exactly when some flag is 0 and none is negative, i.e. when the minimum is 0. All ranks therefore decide alike. On abort only rank 0 reports the error. |
| Collective.CheckForErrorAllOrNothing | mpi_vector_operations.c:123-134 | With 0/1 flags, any two ranks decide alike, and they proceed exactly when every flag is 1. |
| Collective.AllocateLocalVectors | mpi_vector_operations.c:141-155 | Every rank proceeds exactly when every rank obtained both of its buffers. On abort only rank 0 reports. |
| Collective.PartialDots | mpi_vector_operations.c:88 | There is one local dot product per rank. |
| Collective.ReducedDotIsGlobalDot | mpi_vector_operations.c:88-89 | Over reals, the sum of the ranks' local dot products equals the dot product of the gathered vectors. |
| MpiKernel.ParallelDotProduct | mpi_vector_operations.c:215-221 | The result is the left-to-right sum of `x[i] * y[i]` over `[0, local_n)`. It is 0 when `local_n <= 0`. Neither array is written. |
| MpiKernel.ParallelScalarMultiplication | mpi_vector_operations.c:227-231 | Each element before `local_n` becomes `old(a[i]) * scalar`. Every other element keeps its value. |
| MpiKernel.ScaleBlocks | mpi_vector_operations.c:82-83 | Every rank's block keeps its length when scaled. |
| MpiKernel.GatherScaleBlocks | mpi_vector_operations.c:82-83 | Gathering the scaled blocks is scaling the gathered vector. |
| MpiKernel.PrintBufferDecisions | mpi_vector_operations.c:169-178 | (corrected) Every rank aborts exactly when rank 0 failed to get its gather buffer. Only rank 0 reports. |
| MpiKernel.PrintBlockVector | mpi_vector_operations.c:169-194 | A preview exists exactly when the root obtained its buffer. Its `k`-th value is the element held by the rank that owns the `k`-th preview index. |
| MpiKernel.RunDistributed | mpi_vector_operations.c:58-89 | A run reports an invalid order exactly when `n <= 0` or `comm_sz` does not divide `n`. It aborts at allocation exactly when the order is valid and some rank lacks a buffer. A completed run reports vectors of order `n`. |
| MpiKernel.ScaleAndReduce | mpi_vector_operations.c:82-89 | After the checks, the run always completes, and the reported vectors are as long as the gathered inputs. |
| MpiKernel.RunDistributedCompletes | mpi_vector_operations.c:69-89 | With a valid order and every buffer obtained, the run completes. It is the scale-and-reduce phase applied to blocks that gather back to `x` and `y`. |
| MpiKernel.ReportedVectorsAreScaled | mpi_vector_operations.c:82-94 | With a valid order and every buffer obtained, the gathered scaled vectors, of which Print_vector shows the preview, are `s` times the generated vectors. |
| MpiKernel.ReportedDotIsScaledDot | mpi_vector_operations.c:82-89 | With a valid order and every buffer obtained: because scaling precedes the dot product, the reported value is the dot product of the scaled vectors. Over reals this is `s * s` times the dot product of the generated vectors. |
| MpiKernel.DistributedExample | mpi_vector_operations.c:58-98 | Take `n = 4` on two ranks, `x = [1,2,3,4]`, `y = [4,3,2,1]`, `s = 2`. The reported dot product is 80. |
| Preview.PreviewIndices | vector_add.c:142-151 | Print_vector shows `min(n, 20)` indices for `n > 0`, all within `[0, n)` and strictly increasing (so distinct). An index is shown exactly when it is among the first ten or the last ten. For `n < 20` this is every index. |
| Preview.PreviewRanges | mpi_vector_operations.c:185-194 | For `n >= 20` the preview is exactly `0..9` followed by `n-10..n-1`. |
| VectorAdd.AcceptOrder | vector_add.c:37-41 | The order is accepted exactly when it is positive, and the accepted value is `n`. The same check is made by `Read_n` (vector_add.c:83-86). |
| VectorAdd.AcceptOrderIsSingleProcessCase | mpi_vector_operations.c:61-69 | The sequential order check is the distributed one with a single process. |
| VectorAdd.VectorSum | vector_add.c:163-172 | For every `i < n`, `z[i]` is the sum of the original `x[i]` and `y[i]`. This holds even when `z` aliases an input. Elements of `z` from `n` on are unchanged. `x` and `y` are untouched unless they are `z`. |
| VectorAdd.RunVectorAdd | vector_add.c:29-71 | The program succeeds exactly when `n > 0` and all three buffers were obtained. A non-positive order stops it before any allocation or sum. A failed allocation stops it before generation or sum. On success the computed sum is `x[i] + y[i]`, of which Print_vector shows the preview. |
| VectorAdd.RunVectorAddCommutative | vector_add.c:170-171 | Swapping the two generated vectors does not change the run or the computed sum. |
| VectorAdd.SequentialExample | vector_add.c:47-61 | `x = [1,2,3,4]` and `y = [5,6,7,8]` give `[6,8,10,12]`. |
| Findings.SeedAsWritten | mpi_vector_operations.c:205 | (as written) The seed wraps to an unsigned 32-bit value. |
| Findings.SeedsCollide | mpi_vector_operations.c:204-205 | (as written) When both calls read the same clock second, rank `r`'s second vector gets the same seed as rank `r + 1`'s first vector. |
| Findings.Seed | mpi_vector_operations.c:205 | (corrected) The seed `time + 2 * rank + salt` wraps to an unsigned 32-bit value. |
| Findings.SeedsDistinct | mpi_vector_operations.c:204-205 | (corrected) With fewer than 2^31 processes and every `Generate_vector` call reading the same clock second, no two (rank, vector) pairs share a seed. |
| Findings.PrintBufferDecisionsAsWritten | mpi_vector_operations.c:169-178 | (as written) A rank aborts exactly when it is rank 0 and the buffer was not obtained. |
| Findings.PrintBufferFailureSplitsRanks | mpi_vector_operations.c:171-180 | (as written) With two or more processes, a failed root allocation stops rank 0 while rank 1 goes on into the gather. |

## Left out

- The MPI runtime is not modelled: `MPI_Init`, `MPI_Finalize`, communicator queries, `MPI_Barrier`, message passing, concurrency and deadlock. Collectives are the pure functions named above, and `comm_sz >= 1` is taken as given.
- Floating-point rounding is not modelled (see above). The identities about sums of partial dot products hold over reals, not for IEEE doubles.
- Random generation (`Generate_vector` in both files, `rand`, `rand_r`) is a foreign call seeded from the clock. The generated vectors are inputs to `RunVectorAdd` and `RunDistributed`. The seed arithmetic itself is covered under Findings.
- `rand_r(...) / RAND_MAX` can equal 1.0, so generated values lie in `[0, 1]`. This concerns generation only, which is not modelled.
- vector_add.c reseeds with `time(NULL)` on every call of `Generate_vector` (line 182). Both vectors are therefore usually identical. This is not modelled, because generation is not modelled.
- Timing (`clock`, `MPI_Wtime`) is left out. It does not affect any value the programs compute.
- Output formatting (`printf`) is not modelled. The run outcomes carry the full computed vectors; `Preview.PreviewIndices` and `MpiKernel.PrintBlockVector` say which of their elements Print_vector shows. Input (`scanf` in `Read_n` and `Read_vector`, `atoi`, `atof`) and the argument-count checks are left out. The parsed `n` and `s` are inputs. `Read_vector` is not called by either program.
- `malloc` and `free` are abstracted to one success flag per buffer. The `size_t` wrap-around of `n * sizeof(double)` on 32-bit platforms is not modelled.
- Findings.SeedsDistinct: assumes one clock reading `time` for every `Generate_vector` call on every rank. Each call reads `time(NULL)` on its own in its own process, so a call one or more seconds later can still meet another pair's seed (`Seed(t + 2, 0, 1) == Seed(t, 1, 1)`); no seed derived from the clock alone avoids that.
- The `global_dot` of ranks other than 0 is never written. Only rank 0's value is modelled.
- Each rank checks the order on its own in `main`. Every rank sees the same `n` and `comm_sz`, so the model makes one decision for all ranks.
- VectorSum, ParallelScalarMultiplication: these update arrays in place, so their contracts use `old` and `modifies`. The pure `Vectors.Add` and `Vectors.Scale` that their `ensures` refer to carry the properties used elsewhere.
- RunDistributed: every print-buffer allocation of the four Print_vector calls is assumed to succeed. The failure of the root's print buffer is modelled separately by `MpiKernel.PrintBlockVector` and is not threaded into the outcome of `main`.

## Findings

| source | as written | input that shows it | evidently intended | confidence | as-written member | corrected member |
|---|---|---|---|---|---|---|
| mpi_vector_operations.c:205 | The seed is `time + my_rank + i_seed` with `i_seed` 1 or 2, so the seeds of different ranks overlap. | Any `time` read by both calls, ranks 0 and 1: rank 0's `y` seed `time + 0 + 2` equals rank 1's `x` seed `time + 1 + 1`. Those two blocks are identical. | Every (rank, vector) pair gets its own seed, e.g. `time + 2 * my_rank + i_seed`, at least when all calls read the same clock second. | high; not executed | Findings.SeedsCollide | Findings.SeedsDistinct |
| mpi_vector_operations.c:171-178 | When rank 0 cannot allocate the gather buffer, it exits alone. The other ranks enter `MPI_Gather` with no root. | `comm_sz = 2` and rank 0's `malloc(n * sizeof(double))` returns NULL: rank 0 aborts, rank 1 proceeds. | An all-or-nothing decision, as `Check_for_error` gives for the other allocations. | high; not executed | Findings.PrintBufferFailureSplitsRanks | MpiKernel.PrintBufferDecisions |
