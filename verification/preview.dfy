/**
  The index selection of `Print_vector`, which is the same in both programs:
  all elements of a short vector, otherwise the first ten and the last ten.
 */
module Preview {

  /** Orders below this are printed in full. */
  const FullThreshold: int := 20

  /** How many elements are shown at each end of a long vector. */
  const EndCount: int := 10

  /**
    The indices `Print_vector` reads, in the order it prints them: the first
    loop runs over `[0, elements_to_print)` with `elements_to_print` equal to
    `n` when `n < 20` and to 10 otherwise; the second loop, only when
    `n >= 20`, runs over `[n - 10, n)`. A non-positive `n` prints nothing.
   */
  function PreviewIndices(n: int): (idx: seq<int>)
    ensures |idx| == (if n <= 0 then 0 else if n < FullThreshold then n else 2 * EndCount)
    ensures forall k :: 0 <= k < |idx| ==> 0 <= idx[k] < n
    ensures forall k, l :: 0 <= k < l < |idx| ==> idx[k] < idx[l]
    ensures forall i :: i in idx <==> 0 <= i < n && (i < EndCount || n - EndCount <= i)
  {
    var elementsToPrint := if n < FullThreshold then n else EndCount;
    var head := seq(if elementsToPrint < 0 then 0 else elementsToPrint, i => i);
    var tail := if n >= FullThreshold then seq(EndCount, i => n - EndCount + i) else [];
    assert forall k :: 0 <= k < |tail| ==> tail[k] == n - EndCount + k;
    assert forall i :: i in head <==> 0 <= i < |head| by {
      forall i | i in head ensures 0 <= i < |head| { var k :| 0 <= k < |head| && head[k] == i; }
      forall i | 0 <= i < |head| ensures i in head { assert head[i] == i; }
    }
    assert forall i :: i in tail <==> n >= FullThreshold && n - EndCount <= i < n by {
      forall i | i in tail ensures n >= FullThreshold && n - EndCount <= i < n {
        var k :| 0 <= k < |tail| && tail[k] == i;
      }
      forall i | n >= FullThreshold && n - EndCount <= i < n ensures i in tail {
        assert tail[i - (n - EndCount)] == i;
      }
    }
    head + tail
  }

  /** Both ends of a long vector's preview are shown, and they do not overlap. */
  lemma PreviewRanges(n: int)
    requires n >= FullThreshold
    ensures PreviewIndices(n)[..EndCount] == seq(EndCount, i => i)
    ensures PreviewIndices(n)[EndCount..] == seq(EndCount, i => n - EndCount + i)
  {
  }
}
