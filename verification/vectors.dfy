/**
  Vectors and the reference definitions the kernels are specified against.

  Elements are `real`. This abstracts the C `double`: no rounding is modelled,
  so every identity below (in particular the ones that regroup a sum) holds
  of exact arithmetic only and says nothing about the order in which a real
  floating-point reduction adds its terms.
 */
module Vectors {

  /**
    Left-to-right sum `((0 + v[0]) + v[1]) + ...`, the order of an accumulating
    loop and of MPI_Reduce with MPI_SUM over one value per rank. With one value
    the sum is that value; a sum of non-negative values is non-negative.
   */
  function Sum(v: seq<real>): (s: real)
    ensures |v| == 1 ==> s == v[0]
    ensures (forall i :: 0 <= i < |v| ==> v[i] >= 0.0) ==> s >= 0.0
  {
    if |v| == 0 then 0.0 else Sum(v[..|v| - 1]) + v[|v| - 1]
  }

  /** Left-to-right sum of the products `x[i] * y[i]`, starting from 0. */
  function Dot(x: seq<real>, y: seq<real>): real
    requires |x| == |y|
  {
    if |x| == 0 then 0.0 else Dot(x[..|x| - 1], y[..|y| - 1]) + x[|x| - 1] * y[|y| - 1]
  }

  /** Elementwise sum of two vectors of the same order. */
  function Add(x: seq<real>, y: seq<real>): (z: seq<real>)
    requires |x| == |y|
    ensures |z| == |x|
  {
    seq(|x|, i requires 0 <= i < |x| => x[i] + y[i])
  }

  /** Every element multiplied by the scalar `s`. */
  function Scale(v: seq<real>, s: real): (w: seq<real>)
    ensures |w| == |v|
  {
    seq(|v|, i requires 0 <= i < |v| => v[i] * s)
  }

  /** Summing a concatenation is summing the parts. */
  lemma {:induction false} SumAppend(a: seq<real>, b: seq<real>)
    ensures Sum(a + b) == Sum(a) + Sum(b)
    decreases |b|
  {
    if |b| == 0 {
      assert a + b == a;
    } else {
      var b' := b[..|b| - 1];
      assert (a + b)[..|a + b| - 1] == a + b';
      SumAppend(a, b');
    }
  }

  /** The dot product of two concatenations is the sum of the dot products of the parts. */
  lemma {:induction false} DotAppend(x1: seq<real>, y1: seq<real>, x2: seq<real>, y2: seq<real>)
    requires |x1| == |y1| && |x2| == |y2|
    ensures Dot(x1 + x2, y1 + y2) == Dot(x1, y1) + Dot(x2, y2)
    decreases |x2|
  {
    if |x2| == 0 {
      assert x1 + x2 == x1;
      assert y1 + y2 == y1;
    } else {
      var k := |x2| - 1;
      assert (x1 + x2)[..|x1 + x2| - 1] == x1 + x2[..k];
      assert (y1 + y2)[..|y1 + y2| - 1] == y1 + y2[..k];
      DotAppend(x1, y1, x2[..k], y2[..k]);
    }
  }

  /** The dot product does not depend on the order of its two operands. */
  lemma {:induction false} DotSymmetric(x: seq<real>, y: seq<real>)
    requires |x| == |y|
    ensures Dot(x, y) == Dot(y, x)
    decreases |x|
  {
    if |x| != 0 {
      DotSymmetric(x[..|x| - 1], y[..|y| - 1]);
    }
  }

  /** Scaling the first operand by `s` scales the dot product by `s`. */
  lemma {:induction false} DotScaleLeft(x: seq<real>, y: seq<real>, s: real)
    requires |x| == |y|
    ensures Dot(Scale(x, s), y) == s * Dot(x, y)
    decreases |x|
  {
    if |x| != 0 {
      var k := |x| - 1;
      ScalePrefix(x, s, k);
      DotScaleLeft(x[..k], y[..k], s);
      ScaleStep(Dot(Scale(x, s), y), Dot(x, y), Dot(x[..k], y[..k]), x[k], y[k], s);
    }
  }

  /** One step of `DotScaleLeft`: the last scaled product term joins the scaled prefix. */
  lemma ScaleStep(scaled: real, whole: real, a: real, u: real, v: real, s: real)
    requires scaled == s * a + (u * s) * v
    requires whole == a + u * v
    ensures scaled == s * whole
  {
  }

  /** Scaling the operands by `s` and `t` scales the dot product by `s * t`. */
  lemma {:induction false} DotScale(x: seq<real>, y: seq<real>, s: real, t: real)
    requires |x| == |y|
    ensures Dot(Scale(x, s), Scale(y, t)) == s * t * Dot(x, y)
  {
    DotScaleLeft(x, Scale(y, t), s);
    DotSymmetric(x, Scale(y, t));
    DotScaleLeft(y, x, t);
    DotSymmetric(y, x);
  }

  /** Scaling commutes with taking a prefix. */
  lemma ScalePrefix(v: seq<real>, s: real, k: nat)
    requires k <= |v|
    ensures Scale(v, s)[..k] == Scale(v[..k], s)
  {
    assert forall i :: 0 <= i < k ==> Scale(v, s)[..k][i] == Scale(v[..k], s)[i];
  }

  /** Scaling distributes over concatenation. */
  lemma ScaleAppend(a: seq<real>, b: seq<real>, s: real)
    ensures Scale(a + b, s) == Scale(a, s) + Scale(b, s)
  {
    assert forall i :: 0 <= i < |a + b| ==> Scale(a + b, s)[i] == (Scale(a, s) + Scale(b, s))[i];
  }

  /** Vector addition is commutative. */
  lemma AddCommutative(x: seq<real>, y: seq<real>)
    requires |x| == |y|
    ensures Add(x, y) == Add(y, x)
  {
  }

  /** Multiplying by 1 leaves a vector unchanged; multiplying by 0 zeroes it. */
  lemma ScaleIdentityAndZero(v: seq<real>)
    ensures Scale(v, 1.0) == v
    ensures forall i :: 0 <= i < |v| ==> Scale(v, 0.0)[i] == 0.0
  {
  }
}
