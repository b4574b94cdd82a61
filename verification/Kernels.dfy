/** transcript.rs's in-place table routines. */
module Kernels {
  import opened Rings
  import opened Sums
  import opened Multilinear

  ghost predicate IsKernel(R: Ring, point: seq<Elem>, out: seq<Elem>) {
    && |out| >= Pow2(|point|)
    && forall i :: 0 <= i < Pow2(|point|) ==> out[i] == Eq(R, point, i)
  }

  lemma EqAppend(R: Ring, p: seq<Elem>, r: Elem, i: int)
    requires R.Laws() && 0 <= i < 2 * Pow2(|p|)
    ensures i < Pow2(|p|) ==> Eq(R, p + [r], i) == R.mul(Eq(R, p, i), R.add(R.one, r))
    ensures i >= Pow2(|p|) ==> Eq(R, p + [r], i) == R.mul(Eq(R, p, i - Pow2(|p|)), r)
  {
    var h := Pow2(|p|);
    var b := if i < h then 0 else 1;
    EqConcat(R, p, [r], i - h * b, b);
    R.MulOne(EqBit(R, r, b));
    assert Eq(R, [r], b) == R.mul(EqBit(R, r, b), Eq(R, [], b / 2));
  }

  /** Index i of the doubled kernel, from index i mod h of the shorter one. */
  lemma KernelAt(R: Ring, p: seq<Elem>, r: Elem, h: nat, i: nat, e: Elem, v: Elem)
    requires R.Laws() && h == Pow2(|p|) && i < 2 * h
    requires i < h ==> e == Eq(R, p, i) && v == R.add(e, R.mul(e, r))
    requires h <= i ==> e == Eq(R, p, i - h) && v == R.mul(e, r)
    ensures v == Eq(R, p + [r], i)
  {
    hide Eq;
    EqAppend(R, p, r, i);
    R.Dist(e, R.one, r);
    R.MulOne(e);
  }

  /** One more coordinate: what the doubling step leaves is the longer point's kernel. */
  lemma KernelStep(R: Ring, p: seq<Elem>, r: Elem, was: seq<Elem>, now: seq<Elem>, h: nat)
    requires R.Laws() && h == Pow2(|p|) && IsKernel(R, p, was) && |now| == |was| >= 2 * h
    requires IsDouble(R, was, now, h, h, r)
    ensures IsKernel(R, p + [r], now)
  {
    assert |p + [r]| == |p| + 1;
    hide Eq;
    forall i | 0 <= i < h
      ensures now[i] == Eq(R, p + [r], i)
    {
      KernelAt(R, p, r, h, i, was[i], now[i]);
    }
    forall i | h <= i < 2 * h
      ensures now[i] == Eq(R, p + [r], i)
    {
      KernelAt(R, p, r, h, i, was[i - h], now[i]);
    }
  }

  /** `eq_kernel`: eq(i, point) for every index i, least significant coordinate first. */
  method EqKernel(R: Ring, point: seq<Elem>, out: array<Elem>)
    requires R.Laws() && out.Length >= Pow2(|point|)
    modifies out
    ensures IsKernel(R, point, out[..])
    ensures out[Pow2(|point|)..] == old(out[..])[Pow2(|point|)..]
  {
    out[0] := R.one;
    hide IsDouble;
    var k := 0;
    ghost var first := out[..];
    while k < |point|
      invariant 0 <= k <= |point|
      invariant Pow2(k) <= out.Length && IsKernel(R, point[..k], out[..])
      invariant out[Pow2(k)..] == first[Pow2(k)..]
    {
      var r := point[k];
      Pow2Mono(k + 1, |point|);
      ghost var was := out[..];
      DoubleKernel(R, out, Pow2(k), r);
      assert out[Pow2(k + 1)..] == was[Pow2(k)..][Pow2(k)..];
      KernelStep(R, point[..k], r, was, out[..], Pow2(k));
      assert point[..k + 1] == point[..k] + [r];
      k := k + 1;
    }
    assert point[..|point|] == point;
  }

  ghost predicate IsDouble(R: Ring, was: seq<Elem>, now: seq<Elem>, half: nat, i: nat, r: Elem)
    requires i <= half && 2 * half <= |was| == |now|
  {
    && (forall j :: 0 <= j < i ==> now[j] == R.add(was[j], R.mul(was[j], r)))
    && (forall j {:trigger now[j]} :: half <= j < half + i ==> now[j] == R.mul(was[j - half], r))
    && (forall j :: i <= j < half || 2 * half <= j < |was| ==> now[j] == was[j])
  }

  /** The inner loop of `eq_kernel`. */
  method DoubleKernel(R: Ring, out: array<Elem>, half: nat, r: Elem)
    requires 0 < half && 2 * half <= out.Length
    modifies out
    ensures IsDouble(R, old(out[..]), out[..], half, half, r)
  {
    ghost var was := out[..];
    var i := 0;
    while i < half
      invariant 0 <= i <= half
      invariant IsDouble(R, was, out[..], half, i, r)
    {
      assert out[i] == was[i];
      var high := R.mul(out[i], r);
      out[i + half] := high;
      out[i] := R.add(out[i], high);
      i := i + 1;
    }
  }

  /** The values a list holds; zero beyond its end. */
  function TableOf(R: Ring, s: seq<Elem>): int -> Elem {
    k => if 0 <= k < |s| then s[k] else R.zero
  }

  lemma TableAt(R: Ring, s: seq<Elem>, k: nat)
    requires k < |s|
    ensures TableOf(R, s)(k) == s[k]
  {
  }

  /** `fold_eval`: the multilinear extension of `values` at `point`, folding `values` in place.
      The size is the caller's to get right, and is checked. */
  method FoldEval(R: Ring, values: array<Elem>, point: seq<Elem>) returns (ok: bool, r: Elem)
    requires R.Laws()
    modifies values
    ensures ok <==> |point| < 32 && values.Length == Pow2(|point|)
    ensures ok ==> r == Mle(R, TableOf(R, old(values[..])), point)
    ensures !ok ==> values[..] == old(values[..])
  {
    hide Mle, TableOf;
    ok := |point| < 32 && values.Length == Pow2(|point|);
    if !ok {
      return ok, R.zero;
    }
    var len, k := values.Length, 0;
    ghost var want := Mle(R, TableOf(R, values[..]), point);
    while k < |point|
      invariant 0 <= k <= |point| && len == Pow2(|point| - k) <= values.Length
      invariant want == Mle(R, TableOf(R, values[..]), point[k..])
    {
      ghost var was := values[..];
      FoldOnce(R, values, len / 2, point[k]);
      FoldStep(R, was, values[..], len / 2, point[k..]);
      assert point[k..][1..] == point[k + 1..];
      len := len / 2;
      k := k + 1;
    }
    assert point[k..] == [];
    MleEmpty(R, TableOf(R, values[..]));
    TableAt(R, values[..], 0);
    r := values[0];
  }

  ghost predicate IsFold(R: Ring, was: seq<Elem>, now: seq<Elem>, n: nat, r: Elem)
    requires 2 * n <= |was| && n <= |now|
  {
    forall j :: 0 <= j < n ==> now[j] == R.Lerp(was[2 * j], was[2 * j + 1], r)
  }

  lemma FoldTable(R: Ring, was: seq<Elem>, now: seq<Elem>, n: nat, r: Elem)
    requires 2 * n <= |was| && n <= |now| && IsFold(R, was, now, n, r)
    ensures forall j :: 0 <= j < n ==> Fold(R, TableOf(R, was), r)(j) == TableOf(R, now)(j)
  {
  }

  lemma FoldStep(R: Ring, was: seq<Elem>, now: seq<Elem>, n: nat, p: seq<Elem>)
    requires R.Laws() && p != [] && n == Pow2(|p| - 1)
    requires 2 * n <= |was| && n <= |now| && IsFold(R, was, now, n, p[0])
    ensures Mle(R, TableOf(R, was), p) == Mle(R, TableOf(R, now), p[1..])
  {
    hide Mle, TableOf, IsFold;
    FoldTable(R, was, now, n, p[0]);
    MleFold(R, TableOf(R, was), p);
    MleEq(R, Fold(R, TableOf(R, was), p[0]), TableOf(R, now), p[1..]);
  }

  /** The inner loop of `fold_eval`. */
  method FoldOnce(R: Ring, values: array<Elem>, half: nat, r: Elem)
    requires 2 * half <= values.Length
    modifies values
    ensures IsFold(R, old(values[..]), values[..], half, r)
  {
    ghost var was := values[..];
    var i := 0;
    while i < half
      invariant 0 <= i <= half
      invariant IsFold(R, was, values[..], i, r)
      invariant forall j :: i <= j < values.Length ==> values[j] == was[j]
    {
      values[i] := R.add(values[2 * i], R.mul(r, R.add(values[2 * i], values[2 * i + 1])));
      i := i + 1;
    }
  }
}
