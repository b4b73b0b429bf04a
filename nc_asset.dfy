/**
 * The imported data set: a flat buffer plus its shape, read with row-major
 * coordinates (the last axis varies fastest).
 */
module NcAssets {
  import opened Wrappers
  import opened Extended
  import Arith

  /** Product of all axis lengths, folded from the left like `Aggregate((a, b) => a * b)`. */
  function Product(shape: seq<int>): int {
    if shape == [] then 1 else Product(shape[..|shape| - 1]) * shape[|shape| - 1]
  }

  /** A shape whose every axis is positive holds at least one element. */
  lemma {:induction false} ProductPositive(shape: seq<int>)
    requires PositiveShape(shape)
    ensures Product(shape) >= 1
  {
    if shape != [] {
      var s := shape[..|shape| - 1];
      assert PositiveShape(s);
      ProductPositive(s);
      Arith.MulMonotone(1, Product(s), shape[|shape| - 1]);
    }
  }

  /**
   * The coordinates the general `Get` can fold without reading `shape` past
   * its end: at least one coordinate, and one axis length for every
   * coordinate after the first.
   */
  predicate Addressable(shape: seq<int>, idx: seq<int>) {
    1 <= |idx| && (|idx| == 1 || |idx| <= |shape|)
  }

  /** Every coordinate lies inside its axis. */
  predicate InRange(shape: seq<int>, idx: seq<int>) {
    |idx| <= |shape| && forall i :: 0 <= i < |idx| ==> 0 <= idx[i] < shape[i]
  }

  /** Every axis has positive length. */
  predicate PositiveShape(shape: seq<int>) {
    forall i :: 0 <= i < |shape| ==> shape[i] > 0
  }

  /** The Horner fold `index = index * shape[i] + idx[i]` started from `idx[0]`. */
  function FlatIndex(shape: seq<int>, idx: seq<int>): int
    requires Addressable(shape, idx)
  {
    if |idx| == 1 then idx[0]
    else FlatIndex(shape, idx[..|idx| - 1]) * shape[|idx| - 1] + idx[|idx| - 1]
  }

  /** The inverse of FlatIndex: splits a flat index into one coordinate per axis. */
  function Unravel(shape: seq<int>, k: int): (idx: seq<int>)
    requires |shape| >= 1 && PositiveShape(shape)
    ensures |idx| == |shape|
  {
    if |shape| == 1 then [k]
    else
      var last := shape[|shape| - 1];
      Unravel(shape[..|shape| - 1], k / last) + [k % last]
  }

  /** FlatIndex reads only the lengths of axes 1 .. |idx|-1; in particular never `shape[0]`. */
  lemma {:induction false} FlatIndexIgnoresOuterAxis(s1: seq<int>, s2: seq<int>, idx: seq<int>)
    requires Addressable(s1, idx) && Addressable(s2, idx)
    requires forall i :: 1 <= i < |idx| ==> s1[i] == s2[i]
    ensures FlatIndex(s1, idx) == FlatIndex(s2, idx)
  {
    if |idx| > 1 {
      FlatIndexIgnoresOuterAxis(s1, s2, idx[..|idx| - 1]);
    }
  }

  /** An in-range coordinate tuple maps into [0, product of the axes it spans). */
  lemma {:induction false} FlatIndexBounds(shape: seq<int>, idx: seq<int>)
    requires 1 <= |idx| <= |shape| && InRange(shape, idx)
    ensures 0 <= FlatIndex(shape, idx) < Product(shape[..|idx|])
  {
    var n := |idx|;
    var s := shape[..n];
    assert s[..n - 1] == shape[..n - 1];
    if n == 1 {
      assert Product(s) == Product(s[..0]) * s[0];
    } else {
      var p := idx[..n - 1];
      FlatIndexBounds(shape, p);
      var q := FlatIndex(shape, p);
      var l := shape[n - 1];
      var x := idx[n - 1];
      assert FlatIndex(shape, idx) == q * l + x;
      Arith.MulMonotone(q, Product(shape[..n - 1]) - 1, l);
      assert (Product(shape[..n - 1]) - 1) * l == Product(shape[..n - 1]) * l - l;
      assert q * l >= 0;
    }
  }

  /** Every index of [0, product) is hit by the coordinates Unravel gives (surjectivity). */
  lemma {:induction false} UnravelRoundTrip(shape: seq<int>, k: int)
    requires |shape| >= 1 && PositiveShape(shape)
    requires 0 <= k < Product(shape)
    ensures InRange(shape, Unravel(shape, k))
    ensures FlatIndex(shape, Unravel(shape, k)) == k
  {
    var n := |shape|;
    if n == 1 {
      assert Product(shape) == Product(shape[..0]) * shape[0];
    } else {
      var s := shape[..n - 1];
      var l := shape[n - 1];
      var q := k / l;
      assert Product(shape) == Product(s) * l;
      Arith.DivBelow(k, l, Product(s));
      assert PositiveShape(s);
      UnravelRoundTrip(s, q);
      var u := Unravel(shape, k);
      assert u[..n - 1] == Unravel(s, q);
      assert u[n - 1] == k % l;
      FlatIndexIgnoresOuterAxis(shape, s, Unravel(s, q));
      assert FlatIndex(shape, u) == FlatIndex(shape, u[..n - 1]) * l + u[n - 1];
    }
  }

  /** Unravel recovers every in-range coordinate tuple from its flat index (injectivity). */
  lemma {:induction false} FlatIndexRoundTrip(shape: seq<int>, idx: seq<int>)
    requires |idx| == |shape| >= 1 && PositiveShape(shape) && InRange(shape, idx)
    ensures Unravel(shape, FlatIndex(shape, idx)) == idx
  {
    var n := |idx|;
    if n > 1 {
      var s := shape[..n - 1];
      var p := idx[..n - 1];
      var l := shape[n - 1];
      FlatIndexBounds(shape, p);
      var q := FlatIndex(shape, p);
      Arith.DivModUnique(FlatIndex(shape, idx), l, q, idx[n - 1]);
      FlatIndexIgnoresOuterAxis(shape, s, p);
      FlatIndexRoundTrip(s, p);
    }
  }

  /** Distinct in-range coordinate tuples have distinct flat indices. */
  lemma FlatIndexInjective(shape: seq<int>, a: seq<int>, b: seq<int>)
    requires |a| == |b| == |shape| >= 1 && PositiveShape(shape)
    requires InRange(shape, a) && InRange(shape, b)
    requires FlatIndex(shape, a) == FlatIndex(shape, b)
    ensures a == b
  {
    FlatIndexRoundTrip(shape, a);
    FlatIndexRoundTrip(shape, b);
  }

  /** With a buffer as long as the product of the shape, every in-range read is in bounds. */
  lemma InRangeReadIsInBounds(shape: seq<int>, dataLength: int, idx: seq<int>)
    requires dataLength == Product(shape)
    requires |idx| == |shape| >= 1 && InRange(shape, idx)
    ensures Addressable(shape, idx) && 0 <= FlatIndex(shape, idx) < dataLength
  {
    FlatIndexBounds(shape, idx);
    assert shape[..|idx|] == shape;
  }

  /** An out-of-range read (C#'s IndexOutOfRangeException). */
  datatype AccessError = IndexOutOfRange

  /** The asset a `.nc` import produces; its fields are replaced only by the importer. */
  class NCAsset {
    var variable: string
    var shape: seq<int>
    var minValue: ExtReal
    var maxValue: ExtReal
    var data: seq<real>

    /** A fresh asset (`ScriptableObject.CreateInstance`): nothing imported yet. */
    constructor ()
      ensures variable == [] && shape == [] && data == []
      ensures minValue == Finite(0.0) && maxValue == Finite(0.0)
    {
      variable := [];
      shape := [];
      minValue := Finite(0.0);
      maxValue := Finite(0.0);
      data := [];
    }

    /** `Get(x)`: the raw buffer element; no shape is consulted. */
    function Get1(x: int): (r: Result<real, AccessError>)
      reads this
      ensures r.Success? <==> 0 <= FlatIndex(shape, [x]) < |data|
      ensures r.Success? ==> r.value == data[FlatIndex(shape, [x])]
    {
      if 0 <= x < |data| then Success(data[x]) else Failure(IndexOutOfRange)
    }

    /** `Get(x, y)`: agrees with the general fold on two coordinates. */
    function Get2(x: int, y: int): (r: Result<real, AccessError>)
      reads this
      ensures r.Success? <==> Addressable(shape, [x, y]) && 0 <= FlatIndex(shape, [x, y]) < |data|
      ensures r.Success? ==> r.value == data[FlatIndex(shape, [x, y])]
    {
      if |shape| < 2 then Failure(IndexOutOfRange)
      else
        var i := x * shape[1] + y;
        if 0 <= i < |data| then Success(data[i]) else Failure(IndexOutOfRange)
    }

    /** `Get(x, y, z)`: agrees with the general fold on three coordinates. */
    function Get3(x: int, y: int, z: int): (r: Result<real, AccessError>)
      reads this
      ensures r.Success? <==> Addressable(shape, [x, y, z]) && 0 <= FlatIndex(shape, [x, y, z]) < |data|
      ensures r.Success? ==> r.value == data[FlatIndex(shape, [x, y, z])]
    {
      if |shape| < 3 then Failure(IndexOutOfRange)
      else
        var i := (x * shape[1] + y) * shape[2] + z;
        assert [x, y, z][..2] == [x, y] && [x, y][..1] == [x];
        assert FlatIndex(shape, [x, y]) == x * shape[1] + y;
        assert FlatIndex(shape, [x, y, z]) == i;
        if 0 <= i < |data| then Success(data[i]) else Failure(IndexOutOfRange)
    }

    /** `Get(params int[] indices)`: the Horner loop over any number of coordinates. */
    method Get(indices: seq<int>) returns (r: Result<real, AccessError>)
      ensures r.Success? <==> Addressable(shape, indices) && 0 <= FlatIndex(shape, indices) < |data|
      ensures r.Success? ==> r.value == data[FlatIndex(shape, indices)]
    {
      if |indices| == 0 {
        return Failure(IndexOutOfRange);
      }
      var flatIndex := indices[0];
      var i := 1;
      while i < |indices|
        invariant 1 <= i <= |indices|
        invariant i == 1 || i <= |shape|
        invariant flatIndex == FlatIndex(shape, indices[..i])
      {
        if i >= |shape| {
          return Failure(IndexOutOfRange);
        }
        assert indices[..i + 1][..i] == indices[..i];
        flatIndex := flatIndex * shape[i];
        flatIndex := flatIndex + indices[i];
        i := i + 1;
      }
      assert indices[..i] == indices;
      if 0 <= flatIndex < |data| {
        r := Success(data[flatIndex]);
      } else {
        r := Failure(IndexOutOfRange);
      }
    }
  }
}
