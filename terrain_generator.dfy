/**
 * The terrain generator: it shows one month of a (month, x, y) temperature
 * grid as terrain heights, with a heightmap whose resolution is a power of
 * two plus one.
 */
module TerrainGeneration {
  import NetCdf

  // ---------------------------------------------------------------------
  // Resolution

  predicate IsPowerOfTwo(n: int)
    decreases if n > 0 then n else 0
  {
    n == 1 || (n >= 2 && n % 2 == 0 && IsPowerOfTwo(n / 2))
  }

  /**
   * `FloorToNearestPowerOfTwo`: the largest power of two not above `x`.
   * For x = 0 the float path takes `Log` of 0, which is `-Infinity`, and
   * `Pow(2, -Infinity)` truncates to 0. A negative x cannot occur, because
   * the argument is a `GetLength`.
   */
  function FloorToNearestPowerOfTwo(x: int): (p: int)
    ensures x >= 1 ==> IsPowerOfTwo(p) && p <= x < 2 * p
    ensures x < 1 ==> p == 0
    decreases if x > 0 then x else 0
  {
    if x < 1 then 0
    else if x == 1 then 1
    else 2 * FloorToNearestPowerOfTwo(x / 2)
  }

  /** Only one power of two p has p <= x < 2p, so the floor is determined by its contract. */
  lemma {:induction false} PowerOfTwoFloorUnique(x: int, p: int)
    requires IsPowerOfTwo(p) && p <= x < 2 * p
    ensures FloorToNearestPowerOfTwo(x) == p
    decreases p
  {
    if p >= 2 {
      PowerOfTwoFloorUnique(x / 2, p / 2);
    }
  }

  /** The two examples in the doc comment: 20 gives 16 and 1200 gives 1024. */
  lemma DocCommentExamples()
    ensures FloorToNearestPowerOfTwo(20) == 16
    ensures FloorToNearestPowerOfTwo(1200) == 1024
  {
    assert IsPowerOfTwo(16);
    PowerOfTwoFloorUnique(20, 16);
    assert IsPowerOfTwo(1024);
    PowerOfTwoFloorUnique(1200, 1024);
  }

  /**
   * `Start`: the heightmap resolution for data of sizeX by sizeY cells, one
   * more than the largest power of two not above the smaller dimension.
   */
  function HeightmapResolution(sizeX: int, sizeY: int): (r: int)
    ensures r >= 1
    ensures var m := if sizeX <= sizeY then sizeX else sizeY;
            m >= 1 ==> IsPowerOfTwo(r - 1) && r - 1 <= m < 2 * (r - 1)
    ensures (sizeX < 1 || sizeY < 1) ==> r == 1
  {
    FloorToNearestPowerOfTwo(if sizeX <= sizeY then sizeX else sizeY) + 1
  }

  /**
   * The slice loop reads x, y up to resolution - 1, so its reads stay inside
   * the data exactly when the smaller dimension is not itself a power of two.
   */
  lemma SliceFitsIffNotPowerOfTwo(sizeX: int, sizeY: int)
    requires sizeX >= 1 && sizeY >= 1
    ensures (HeightmapResolution(sizeX, sizeY) <= sizeX && HeightmapResolution(sizeX, sizeY) <= sizeY)
            <==> !IsPowerOfTwo(if sizeX <= sizeY then sizeX else sizeY)
  {
    var m := if sizeX <= sizeY then sizeX else sizeY;
    if IsPowerOfTwo(m) {
      PowerOfTwoFloorUnique(m, m);
    }
  }

  /** A 16 x 16 grid gives resolution 17, one more than either dimension. */
  lemma PowerOfTwoDimensionOverruns()
    ensures HeightmapResolution(16, 16) == 17
  {
    assert IsPowerOfTwo(16);
    PowerOfTwoFloorUnique(16, 16);
  }

  // ---------------------------------------------------------------------
  // Month

  /** `Mathf.RoundToInt`: to the nearest integer, halves to the even neighbour. */
  function RoundToInt(v: real): (n: int)
    ensures -0.5 <= v - n as real <= 0.5
    ensures (v - n as real == 0.5 || v - n as real == -0.5) ==> n % 2 == 0
  {
    var f := v.Floor;
    var d := v - f as real;
    if d < 0.5 then f
    else if d > 0.5 then f + 1
    else if f % 2 == 0 then f
    else f + 1
  }

  /** `Mathf.Clamp(value, min, max)` on integers. */
  function Clamp(value: int, lo: int, hi: int): (r: int)
    requires lo <= hi
    ensures lo <= r <= hi
    ensures lo <= value <= hi ==> r == value
    ensures value < lo ==> r == lo
    ensures value > hi ==> r == hi
  {
    if value < lo then lo else if value > hi then hi else value
  }

  /** The month `SetMonth` selects: the rounded argument, clamped to January .. December. */
  function MonthFor(month: real): (m: int)
    ensures 0 <= m <= 11
  {
    Clamp(RoundToInt(month), 0, 11)
  }

  /** A whole month in range is selected as is. */
  lemma MonthForWholeMonth(m: int)
    requires 0 <= m <= 11
    ensures MonthFor(m as real) == m
  {
  }

  /** The height `UpdateTerrainHeights` gives one temperature sample. */
  function HeightOf(kelvin: real, maxHeight: int): (h: real)
    requires maxHeight != 0
    ensures h * maxHeight as real == NetCdf.KelvinToCelsius(kelvin)
    ensures maxHeight > 0 ==> (h >= 0.0 <==> kelvin >= NetCdf.KelvinOffset)
  {
    NetCdf.KelvinToCelsius(kelvin) / maxHeight as real
  }

  // ---------------------------------------------------------------------
  // The component

  class TerrainGenerator {
    var maxHeight: int
    /** The temperature data: (month, x, y). */
    var t2Data: array3<real>
    /** `terrainData.heightmapResolution`. */
    var heightmapResolution: int
    var month: int
    /** The last slice handed to `terrainData.SetHeights`. */
    var heights: array2<real>

    ghost predicate Valid()
      reads this
    {
      0 <= month <= 11 && heightmapResolution >= 1 && maxHeight != 0
    }

    /** The slice loop stays inside `t2Data` for the current month. */
    predicate SliceInBounds()
      reads this
    {
      0 <= month < t2Data.Length0 && heightmapResolution <= t2Data.Length1 && heightmapResolution <= t2Data.Length2
    }

    /** `heights` is the slice of the current month. */
    ghost predicate ShowsMonth()
      reads this, heights, t2Data
      requires Valid()
    {
      && SliceInBounds()
      && heights.Length0 == heightmapResolution && heights.Length1 == heightmapResolution
      && forall x, y :: 0 <= x < heightmapResolution && 0 <= y < heightmapResolution ==>
           heights[x, y] == HeightOf(t2Data[month, x, y], maxHeight)
    }

    /**
     * `Start` with the data `NetCDF.Load` returned: month 0, the resolution
     * from the two spatial dimensions, and the first slice.
     */
    constructor Start(data: array3<real>, maxHeight: int)
      requires maxHeight != 0
      ensures Valid()
      ensures this.maxHeight == maxHeight && t2Data == data && month == 0
      ensures heightmapResolution == HeightmapResolution(data.Length1, data.Length2)
      ensures SliceInBounds() ==> ShowsMonth()
      ensures !SliceInBounds() ==> heights.Length0 == 0 && heights.Length1 == 0
    {
      this.maxHeight := maxHeight;
      t2Data := data;
      month := 0;
      heightmapResolution := HeightmapResolution(data.Length1, data.Length2);
      heights := new real[0, 0];
      new;
      var ok := UpdateTerrainHeights();
    }

    /**
     * `UpdateTerrainHeights`: copies the current month's size x size block,
     * converted to Celsius and divided by the maximum height. A read outside
     * `t2Data` throws before `SetHeights`, so then nothing changes.
     */
    method UpdateTerrainHeights() returns (ok: bool)
      requires Valid()
      modifies this`heights
      ensures Valid()
      ensures ok <==> SliceInBounds()
      ensures ok ==> fresh(heights) && ShowsMonth()
      ensures !ok ==> heights == old(heights)
    {
      var size := heightmapResolution;
      if !SliceInBounds() {
        return false;
      }
      var t2Slice := new real[size, size];
      var x := 0;
      while x < size
        invariant 0 <= x <= size
        invariant forall i, j :: 0 <= i < x && 0 <= j < size ==> t2Slice[i, j] == HeightOf(t2Data[month, i, j], maxHeight)
      {
        var y := 0;
        while y < size
          invariant 0 <= y <= size
          invariant forall i, j :: 0 <= i < x && 0 <= j < size ==> t2Slice[i, j] == HeightOf(t2Data[month, i, j], maxHeight)
          invariant forall j :: 0 <= j < y ==> t2Slice[x, j] == HeightOf(t2Data[month, x, j], maxHeight)
        {
          var t2 := t2Data[month, x, y];
          t2 := NetCdf.KelvinToCelsius(t2);
          t2Slice[x, y] := t2 / maxHeight as real;
          y := y + 1;
        }
        x := x + 1;
      }
      heights := t2Slice;
      ok := true;
    }

    /**
     * `SetMonth`: selects the rounded, clamped month and regenerates the
     * heights only when the month changes.
     */
    method SetMonth(m: real) returns (ok: bool)
      requires Valid()
      modifies this`month, this`heights
      ensures Valid()
      ensures month == MonthFor(m)
      ensures old(month) == MonthFor(m) ==> ok && heights == old(heights)
      ensures old(month) != MonthFor(m) ==> (ok <==> SliceInBounds())
      ensures old(month) != MonthFor(m) && ok ==> fresh(heights) && ShowsMonth()
      ensures old(month) != MonthFor(m) && !ok ==> heights == old(heights)
    {
      var newMonth := Clamp(RoundToInt(m), 0, 11);
      ok := true;
      if month != newMonth {
        month := newMonth;
        ok := UpdateTerrainHeights();
      }
    }
  }

  /** Calling `SetMonth` a second time with the same value changes nothing. */
  method SetMonthTwice(g: TerrainGenerator, m: real) returns (second: bool, ghost heights1: array2<real>)
    requires g.Valid()
    modifies g
    ensures g.month == MonthFor(m)
    ensures second && g.heights == heights1
  {
    var first := g.SetMonth(m);
    heights1 := g.heights;
    second := g.SetMonth(m);
  }
}
