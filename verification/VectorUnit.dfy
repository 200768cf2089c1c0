/**
  The vector instructions that the FFT kernels use, on registers of real numbers.  Memory is an array of 32-bit
  elements; addresses are element numbers, while strides and indices are in bytes, as the instructions take them.
  */
module VectorUnit {
  import opened Arithmetic

  type Register = seq<real>

  /** `vsetvli`: any vector length up to the requested one may be granted. */
  method Vsetvli(avl: nat) returns (vl: nat)
    requires avl > 0
    ensures 1 <= vl <= avl
  {
    vl :| 1 <= vl <= avl;
  }

  /** `vle32.v` */
  method Vle32(a: array<real>, p: nat, vl: nat) returns (v: Register)
    requires p + vl <= a.Length
    ensures |v| == vl && forall i :: 0 <= i < vl ==> v[i] == a[p + i]
  {
    v := a[p..p + vl];
  }

  /** `vle16.v` */
  method Vle16(a: array<nat>, p: nat, vl: nat) returns (v: seq<nat>)
    requires p + vl <= a.Length
    ensures |v| == vl && forall i :: 0 <= i < vl ==> v[i] == a[p + i]
  {
    v := a[p..p + vl];
  }

  /** `vse32.v` */
  method Vse32(v: Register, a: array<real>, p: nat)
    requires p + |v| <= a.Length
    modifies a
    ensures forall k :: 0 <= k < a.Length ==> a[k] == if p <= k < p + |v| then v[k - p] else old(a[k])
  {
    for i := 0 to |v|
      invariant forall k :: 0 <= k < a.Length ==> a[k] == if p <= k < p + i then v[k - p] else old(a[k])
    {
      a[p + i] := v[i];
    }
  }

  /** Where element `i` of a strided store goes. */
  function Strided(p: nat, step: nat, i: nat): nat {
    p + i * step
  }

  lemma StridedDistinct(p: nat, step: nat, i: nat, j: nat)
    requires step > 0 && Strided(p, step, i) == Strided(p, step, j)
    ensures i == j
  {
    ScaleOrder(i, j, step);
    ScaleOrder(j, i, step);
  }

  /** `vsse32.v` */
  method Vsse32(v: Register, a: array<real>, p: nat, stride: nat)
    requires stride % 4 == 0 && stride > 0
    requires forall i :: 0 <= i < |v| ==> Strided(p, stride / 4, i) < a.Length
    modifies a
    ensures forall i :: 0 <= i < |v| ==> a[Strided(p, stride / 4, i)] == v[i]
    ensures forall k ::
        0 <= k < a.Length ==> a[k] == old(a[k]) || exists i :: 0 <= i < |v| && k == Strided(p, stride / 4, i)
  {
    var step := stride / 4;
    for n := 0 to |v|
      invariant forall i :: 0 <= i < n ==> a[Strided(p, step, i)] == v[i]
      invariant forall k ::
          0 <= k < a.Length ==> a[k] == old(a[k]) || exists i :: 0 <= i < n && k == Strided(p, step, i)
    {
      forall i | 0 <= i < n
        ensures Strided(p, step, i) != Strided(p, step, n)
      {
        if Strided(p, step, i) == Strided(p, step, n) {
          StridedDistinct(p, step, i, n);
        }
      }
      a[Strided(p, step, n)] := v[n];
    }
  }

  /** Where element `i` of an indexed store goes. */
  function Indexed(p: nat, index: seq<nat>, i: nat): nat
    requires i < |index|
  {
    p + index[i] / 4
  }

  /** `vsuxei16.v`, with distinct indices: the order of the element stores does not matter then. */
  method Vsuxei16(v: Register, a: array<real>, p: nat, index: seq<nat>)
    requires |index| == |v| && forall i :: 0 <= i < |index| ==> index[i] % 4 == 0 && Indexed(p, index, i) < a.Length
    requires forall i, j :: 0 <= i < j < |index| ==> Indexed(p, index, i) != Indexed(p, index, j)
    modifies a
    ensures forall i :: 0 <= i < |v| ==> a[Indexed(p, index, i)] == v[i]
    ensures forall k :: 0 <= k < a.Length ==> a[k] == old(a[k]) || exists i :: 0 <= i < |v| && k == Indexed(p, index, i)
  {
    for n := 0 to |v|
      invariant forall i :: 0 <= i < n ==> a[Indexed(p, index, i)] == v[i]
      invariant forall k ::
          0 <= k < a.Length ==> a[k] == old(a[k]) || exists i :: 0 <= i < n && k == Indexed(p, index, i)
    {
      a[Indexed(p, index, n)] := v[n];
    }
  }

  /** `vfadd.vv` */
  function Vfadd(a: Register, b: Register): (r: Register)
    requires |a| == |b|
    ensures |r| == |a| && forall i :: 0 <= i < |a| ==> r[i] == a[i] + b[i]
  {
    seq(|a|, i requires 0 <= i < |a| => a[i] + b[i])
  }

  /** `vfsub.vv` */
  function Vfsub(a: Register, b: Register): (r: Register)
    requires |a| == |b|
    ensures |r| == |a| && forall i :: 0 <= i < |a| ==> r[i] == a[i] - b[i]
  {
    seq(|a|, i requires 0 <= i < |a| => a[i] - b[i])
  }

  /** `vfmul.vv` */
  function Vfmul(a: Register, b: Register): (r: Register)
    requires |a| == |b|
    ensures |r| == |a| && forall i :: 0 <= i < |a| ==> r[i] == a[i] * b[i]
  {
    seq(|a|, i requires 0 <= i < |a| => a[i] * b[i])
  }

  /** `vfmacc.vv`: the product is added to the destination. */
  function Vfmacc(d: Register, a: Register, b: Register): (r: Register)
    requires |d| == |a| == |b|
    ensures |r| == |a| && forall i :: 0 <= i < |a| ==> r[i] == d[i] + a[i] * b[i]
  {
    seq(|a|, i requires 0 <= i < |a| => d[i] + a[i] * b[i])
  }

  /** `vfnmsac.vv`: the product is subtracted from the destination. */
  function Vfnmsac(d: Register, a: Register, b: Register): (r: Register)
    requires |d| == |a| == |b|
    ensures |r| == |a| && forall i :: 0 <= i < |a| ==> r[i] == d[i] - a[i] * b[i]
  {
    seq(|a|, i requires 0 <= i < |a| => d[i] - a[i] * b[i])
  }
}
