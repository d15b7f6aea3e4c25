/**
 `check_uniform_type`: whether the leading items of a list, or all of it, are
 instances of the class of its first item. The sampling fraction
 `percent_check` is an exact real here.
 */
module Uniformity {
  import opened JsonTree

  /** The number of items that Python's slice `xs[:stop]` keeps of a list of length `len`. */
  function SliceStop(stop: int, len: nat): (k: nat)
    ensures k <= len
    ensures 0 <= stop <= len ==> k == stop
  {
    if stop >= 0 then (if stop <= len then stop else len)
    else if len + stop >= 0 then len + stop
    else 0
  }

  /** How many leading items `check_uniform_type(items, p)` examines. */
  function SampleSize(len: nat, p: real): (k: nat)
    ensures k <= len
  {
    if p < 1.0 then SliceStop((len as real * p).Floor, len) else len
  }

  /** `all(isinstance(item, t) for item in xs)` */
  function AllInstances(xs: seq<Json>, t: PyType): (r: bool)
    ensures r <==> forall i :: 0 <= i < |xs| ==> IsInstance(xs[i], t)
  {
    |xs| == 0 || (IsInstance(xs[0], t) && AllInstances(xs[1..], t))
  }

  /**
   `check_uniform_type(items, p)`. The generator evaluates `type(items[0])` once per
   examined item, so when nothing is examined (an empty list, or a sample of size 0)
   the answer is true and `items[0]` is never touched.
   */
  function CheckUniformType(items: seq<Json>, p: real): (r: bool)
    ensures r <==> forall i :: 0 <= i < SampleSize(|items|, p) ==> IsInstance(items[i], TypeOf(items[0]))
    ensures |items| <= 1 ==> r
    ensures p >= 1.0 ==> (r <==> forall i :: 0 <= i < |items| ==> IsInstance(items[i], TypeOf(items[0])))
  {
    if p < 1.0 then
      var n := SampleSize(|items|, p);
      n == 0 || AllInstances(items[..n], TypeOf(items[0]))
    else
      |items| == 0 || AllInstances(items, TypeOf(items[0]))
  }

  /**
   `isinstance` lets a `bool` item pass against an `int` first item but not the reverse,
   and a third of `[1, "x", 3]` examines only the first item.
   */
  lemma UniformityExamples()
    ensures CheckUniformType([Int(1), Bool(true)], 1.0)
    ensures !CheckUniformType([Bool(true), Int(1)], 1.0)
    ensures !CheckUniformType([Int(1), Float(1.0)], 1.0)
    ensures !CheckUniformType([Int(1), Str("x"), Int(3)], 1.0)
    ensures CheckUniformType([Int(1), Str("x"), Int(3)], 0.34)
  {
    assert (3 as real * 0.34).Floor == 1;
  }

  /** For a fraction in [0, 1) the sample is `floor(len * p)` items, fewer than the whole list. */
  lemma SampleSizeOfFraction(len: nat, p: real)
    requires 0.0 <= p < 1.0
    ensures SampleSize(len, p) == (len as real * p).Floor
    ensures len > 0 ==> SampleSize(len, p) < len
  {
    var x := len as real * p;
    assert 0.0 <= x by { ProductNonNegative(len as real, p); }
    assert x <= len as real by { ProductBound(len as real, p, 1.0); }
    if len > 0 {
      assert x < len as real by { ProductStrictBound(len as real, p, 1.0); }
    }
  }

  /** A smaller fraction examines no more items. */
  lemma SampleSizeMonotone(len: nat, q: real, p: real)
    requires 0.0 <= q <= p
    ensures SampleSize(len, q) <= SampleSize(len, p)
  {
    if p < 1.0 {
      var a := (len as real * q).Floor;
      var b := (len as real * p).Floor;
      assert a <= b by { ScaledFloorMonotone(len as real, q, p); }
      assert SampleSize(len, q) == a by { SampleSizeOfFraction(len, q); }
      assert SampleSize(len, p) == b by { SampleSizeOfFraction(len, p); }
    } else if q < 1.0 {
      SampleSizeOfFraction(len, q);
    }
  }

  /** Scaling by a non-negative factor keeps the order of the floors. */
  lemma ScaledFloorMonotone(n: real, q: real, p: real)
    requires 0.0 <= n && q <= p
    ensures (n * q).Floor <= (n * p).Floor
  {
    var x := n * q;
    var y := n * p;
    assert x <= y by { ProductBound(n, q, p); }
    FloorMonotone(x, y);
  }

  /** A list that passes with a fraction `p` passes with every smaller non-negative fraction, in particular a full pass implies every sampled pass. */
  lemma SampledCheckIsWeaker(items: seq<Json>, q: real, p: real)
    requires 0.0 <= q <= p
    ensures CheckUniformType(items, p) ==> CheckUniformType(items, q)
  {
    SampleSizeMonotone(|items|, q, p);
  }

  /** A list that passes the full check passes with every fraction, negative ones included: every sample is a prefix. */
  lemma FullPassImpliesEverySample(items: seq<Json>, p: real, q: real)
    requires p >= 1.0
    ensures CheckUniformType(items, p) ==> CheckUniformType(items, q)
  {
  }

  /** A negative fraction makes `floor(len * p)` a negative slice stop, which counts from the end of the list. */
  lemma NegativeFractionCountsFromEnd(len: nat, p: real)
    requires -1.0 <= p < 0.0
    ensures SampleSize(len, p) == len + (len as real * p).Floor
  {
    var x := len as real * p;
    var y := len as real * -p;
    assert x == -y;
    assert y <= len as real by { ProductBound(len as real, -p, 1.0); }
    assert 0.0 <= y by { ProductNonNegative(len as real, -p); }
  }

  /** Below -1 the slice stop lies before the start of the list, so nothing is examined and every list is uniform. */
  lemma FractionBelowMinusOneExaminesNothing(items: seq<Json>, p: real)
    requires p < -1.0
    ensures SampleSize(|items|, p) == 0
    ensures CheckUniformType(items, p)
  {
    var n := |items| as real;
    var y := n * -p;
    assert n * p == -y;
    assert n <= y by { ProductBound(n, 1.0, -p); }
    FloorMonotone(n * p, -n);
  }

  lemma FloorMonotone(x: real, y: real)
    requires x <= y
    ensures x.Floor <= y.Floor
  {
    assert x.Floor as real <= x && y < y.Floor as real + 1.0;
  }

  lemma ProductNonNegative(a: real, b: real)
    requires 0.0 <= a && 0.0 <= b
    ensures 0.0 <= a * b
  {
  }

  lemma ProductBound(a: real, b: real, c: real)
    requires 0.0 <= a && b <= c
    ensures a * b <= a * c
  {
    assert a * c - a * b == a * (c - b);
    ProductNonNegative(a, c - b);
  }

  lemma ProductStrictBound(a: real, b: real, c: real)
    requires 0.0 < a && b < c
    ensures a * b < a * c
  {
    assert a * c - a * b == a * (c - b);
  }
}
