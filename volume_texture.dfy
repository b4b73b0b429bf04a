/**
 * The volume texture export: every cell of a temperature grid becomes one
 * colour of a flat array, with x varying fastest, then y, then z.
 */
module VolumeTexture {
  import NetCdf
  import Arith

  /** `UnityEngine.Color`. */
  datatype Color = Color(r: real, g: real, b: real, a: real)

  /** The slot of cell (x, y, z): `x + y * sizeX + z * sizeX * sizeY`. */
  function VoxelIndex(x: int, y: int, z: int, sizeX: int, sizeY: int): (k: int)
    ensures 0 <= x < sizeX && 0 <= y < sizeY && 0 <= z ==>
              z * sizeX * sizeY <= k < (z + 1) * sizeX * sizeY
  {
    PlaneBlock(x, y, z, sizeX, sizeY);
    x + y * sizeX + z * sizeX * sizeY
  }

  /** A cell of plane z lies in that plane's block of sizeX * sizeY slots. */
  lemma PlaneBlock(x: int, y: int, z: int, sizeX: int, sizeY: int)
    ensures 0 <= x < sizeX && 0 <= y < sizeY && 0 <= z ==>
              z * sizeX * sizeY <= x + y * sizeX + z * sizeX * sizeY < (z + 1) * sizeX * sizeY
  {
    if 0 <= x < sizeX && 0 <= y < sizeY && 0 <= z {
      Arith.MulMonotone(0, y, sizeX);
      Arith.MulMonotone(y, sizeY - 1, sizeX);
      assert (sizeY - 1) * sizeX == sizeX * sizeY - sizeX;
      assert (z + 1) * sizeX * sizeY == z * sizeX * sizeY + sizeX * sizeY;
    }
  }

  /** The cell stored in slot k: the inverse of `VoxelIndex`. */
  function VoxelCoords(k: int, sizeX: int, sizeY: int): (c: (int, int, int))
    requires sizeX > 0 && sizeY > 0
  {
    (k % sizeX, (k / sizeX) % sizeY, (k / sizeX) / sizeY)
  }

  predicate InGrid(x: int, y: int, z: int, sizeX: int, sizeY: int, sizeZ: int) {
    0 <= x < sizeX && 0 <= y < sizeY && 0 <= z < sizeZ
  }

  /** Every cell of the grid has a slot inside the colour array. */
  lemma VoxelIndexInBounds(x: int, y: int, z: int, sizeX: int, sizeY: int, sizeZ: int)
    requires InGrid(x, y, z, sizeX, sizeY, sizeZ)
    ensures 0 <= VoxelIndex(x, y, z, sizeX, sizeY) < sizeX * sizeY * sizeZ
  {
    var plane := sizeX * sizeY;
    assert 0 <= y * sizeX && 0 <= z * plane by {
      Arith.MulMonotone(0, y, sizeX);
      Arith.MulMonotone(0, z, plane);
    }
    Arith.MulMonotone(y, sizeY - 1, sizeX);
    assert (sizeY - 1) * sizeX == plane - sizeX;
    Arith.MulMonotone(z, sizeZ - 1, plane);
    assert (sizeZ - 1) * plane == plane * sizeZ - plane;
    assert z * sizeX * sizeY == z * plane;
  }

  /** Decoding a cell's slot gives the cell back, so distinct cells get distinct slots. */
  lemma VoxelIndexRoundTrip(x: int, y: int, z: int, sizeX: int, sizeY: int, sizeZ: int)
    requires InGrid(x, y, z, sizeX, sizeY, sizeZ)
    ensures VoxelCoords(VoxelIndex(x, y, z, sizeX, sizeY), sizeX, sizeY) == (x, y, z)
  {
    var k := VoxelIndex(x, y, z, sizeX, sizeY);
    var q := y + z * sizeY;
    assert k == q * sizeX + x by {
      assert q * sizeX == y * sizeX + z * sizeY * sizeX;
      assert z * sizeY * sizeX == z * sizeX * sizeY;
    }
    Arith.DivModUnique(k, sizeX, q, x);
    Arith.DivModUnique(q, sizeY, z, y);
  }

  /** Every slot of the array is the slot of exactly the cell it decodes to. */
  lemma VoxelCoordsRoundTrip(k: int, sizeX: int, sizeY: int, sizeZ: int)
    requires 0 <= k < sizeX * sizeY * sizeZ
    requires sizeX > 0 && sizeY > 0
    ensures var (x, y, z) := VoxelCoords(k, sizeX, sizeY);
            InGrid(x, y, z, sizeX, sizeY, sizeZ) && VoxelIndex(x, y, z, sizeX, sizeY) == k
  {
    var q := k / sizeX;
    var x, y, z := k % sizeX, q % sizeY, q / sizeY;
    assert k == q * sizeX + x;
    assert q == z * sizeY + y;
    assert q < sizeY * sizeZ by {
      if q >= sizeY * sizeZ {
        Arith.MulMonotone(sizeY * sizeZ, q, sizeX);
      }
    }
    assert 0 <= q by {
      if q < 0 {
        Arith.MulGrows(-q, sizeX);
      }
    }
    assert 0 <= z < sizeZ by {
      if z >= sizeZ {
        Arith.MulMonotone(sizeZ, z, sizeY);
      }
      if z < 0 {
        Arith.MulGrows(-z, sizeY);
      }
    }
    calc {
      VoxelIndex(x, y, z, sizeX, sizeY);
      x + y * sizeX + z * sizeX * sizeY;
      { assert z * sizeX * sizeY == (z * sizeY) * sizeX; }
      x + (y + z * sizeY) * sizeX;
      x + q * sizeX;
      k;
    }
  }

  /** The colour of cell (x, y, z): the gradient at the Celsius temperature's place in the range. */
  function VoxelColor(data: array3<real>, x: int, y: int, z: int,
                      gradient: real -> Color, inverseLerp: (real, real, real) -> real,
                      minTemp: real, maxTemp: real): Color
    requires 0 <= x < data.Length0 && 0 <= y < data.Length1 && 0 <= z < data.Length2
    reads data
  {
    gradient(inverseLerp(minTemp, maxTemp, NetCdf.KelvinToCelsius(data[x, y, z])))
  }

  /** A grid with at least one cell has no empty dimension. */
  lemma PositiveFactors(a: nat, b: nat, c: nat)
    requires a * b * c > 0
    ensures a > 0 && b > 0 && c > 0
  {
  }

  /** After row y, the filled prefix ends where row y + 1 starts. */
  lemma RowDone(y: int, sizeX: int, zOffset: int)
    ensures sizeX + y * sizeX + zOffset == (y + 1) * sizeX + zOffset
  {
  }

  /** After plane z, the filled prefix ends where plane z + 1 starts. */
  lemma PlaneDone(z: int, sizeX: int, sizeY: int)
    ensures sizeY * sizeX + z * sizeX * sizeY == (z + 1) * sizeX * sizeY
  {
  }

  /** The slot of an in-grid cell holds, by `SlotColor`, that cell's colour. */
  lemma SlotOfCell(data: array3<real>, x: int, y: int, z: int,
                   gradient: real -> Color, inverseLerp: (real, real, real) -> real,
                   minTemp: real, maxTemp: real)
    requires InGrid(x, y, z, data.Length0, data.Length1, data.Length2)
    ensures 0 <= VoxelIndex(x, y, z, data.Length0, data.Length1) < data.Length0 * data.Length1 * data.Length2
    ensures SlotColor(data, VoxelIndex(x, y, z, data.Length0, data.Length1), gradient, inverseLerp, minTemp, maxTemp)
            == VoxelColor(data, x, y, z, gradient, inverseLerp, minTemp, maxTemp)
  {
    VoxelIndexInBounds(x, y, z, data.Length0, data.Length1, data.Length2);
    VoxelIndexRoundTrip(x, y, z, data.Length0, data.Length1, data.Length2);
  }

  /** The colour slot k should hold: that of the cell it decodes to. */
  function SlotColor(data: array3<real>, k: int,
                     gradient: real -> Color, inverseLerp: (real, real, real) -> real,
                     minTemp: real, maxTemp: real): Color
    requires 0 <= k < data.Length0 * data.Length1 * data.Length2
    reads data
  {
    var sizeX, sizeY, sizeZ := data.Length0, data.Length1, data.Length2;
    PositiveFactors(sizeX, sizeY, sizeZ);
    VoxelCoordsRoundTrip(k, sizeX, sizeY, sizeZ);
    var (x, y, z) := VoxelCoords(k, sizeX, sizeY);
    VoxelColor(data, x, y, z, gradient, inverseLerp, minTemp, maxTemp)
  }

  /** The first n slots (those that exist) hold their colours. */
  ghost predicate Filled(colors: array<Color>, n: int, data: array3<real>, gradient: real -> Color,
                         inverseLerp: (real, real, real) -> real, minTemp: real, maxTemp: real)
    requires colors.Length == data.Length0 * data.Length1 * data.Length2
    reads colors, data
  {
    forall k :: 0 <= k < n && k < colors.Length ==>
      colors[k] == SlotColor(data, k, gradient, inverseLerp, minTemp, maxTemp)
  }

  /** The write in the innermost loop: cell (x, y, z) gets its colour and the filled prefix grows by one. */
  method StoreColor(colors: array<Color>, data: array3<real>, gradient: real -> Color,
                    inverseLerp: (real, real, real) -> real, minTemp: real, maxTemp: real,
                    x: int, y: int, z: int, color: Color)
    requires colors.Length == data.Length0 * data.Length1 * data.Length2
    requires InGrid(x, y, z, data.Length0, data.Length1, data.Length2)
    requires Filled(colors, VoxelIndex(x, y, z, data.Length0, data.Length1), data, gradient, inverseLerp, minTemp, maxTemp)
    requires color == VoxelColor(data, x, y, z, gradient, inverseLerp, minTemp, maxTemp)
    modifies colors
    ensures Filled(colors, VoxelIndex(x, y, z, data.Length0, data.Length1) + 1, data, gradient, inverseLerp, minTemp, maxTemp)
  {
    SlotOfCell(data, x, y, z, gradient, inverseLerp, minTemp, maxTemp);
    colors[x + y * data.Length0 + z * data.Length0 * data.Length1] := color;
  }

  /**
   * The fill loop of `CreateVolumeTexture`: one colour per cell, in the slot
   * `VoxelIndex` gives it. `gradient` is `tempGradient.Evaluate` and
   * `inverseLerp` is `Mathf.InverseLerp`. `data` is only read.
   */
  method CreateVolumeColors(data: array3<real>, gradient: real -> Color,
                            inverseLerp: (real, real, real) -> real,
                            minTemp: real, maxTemp: real)
    returns (colors: array<Color>)
    ensures fresh(colors)
    ensures colors.Length == data.Length0 * data.Length1 * data.Length2
    ensures forall k :: 0 <= k < colors.Length ==>
              colors[k] == SlotColor(data, k, gradient, inverseLerp, minTemp, maxTemp)
  {
    var sizeX, sizeY, sizeZ := data.Length0, data.Length1, data.Length2;
    colors := new Color[sizeX * sizeY * sizeZ];
    for z := 0 to sizeZ
      invariant Filled(colors, z * sizeX * sizeY, data, gradient, inverseLerp, minTemp, maxTemp)
    {
      var zOffset := z * sizeX * sizeY;
      for y := 0 to sizeY
        invariant Filled(colors, y * sizeX + zOffset, data, gradient, inverseLerp, minTemp, maxTemp)
      {
        var yOffset := y * sizeX;
        for x := 0 to sizeX
          invariant Filled(colors, x + yOffset + zOffset, data, gradient, inverseLerp, minTemp, maxTemp)
        {
          var t2 := NetCdf.KelvinToCelsius(data[x, y, z]);
          var color := gradient(inverseLerp(minTemp, maxTemp, t2));
          StoreColor(colors, data, gradient, inverseLerp, minTemp, maxTemp, x, y, z, color);
        }
        RowDone(y, sizeX, zOffset);
      }
      PlaneDone(z, sizeX, sizeY);
    }
    assert sizeZ * sizeX * sizeY == colors.Length;
  }

  /** Read by cell: the colour of every cell is in that cell's slot. */
  lemma CellColorInItsSlot(data: array3<real>, colors: array<Color>, gradient: real -> Color,
                           inverseLerp: (real, real, real) -> real, minTemp: real, maxTemp: real,
                           x: int, y: int, z: int)
    requires colors.Length == data.Length0 * data.Length1 * data.Length2
    requires forall k :: 0 <= k < colors.Length ==>
               colors[k] == SlotColor(data, k, gradient, inverseLerp, minTemp, maxTemp)
    requires InGrid(x, y, z, data.Length0, data.Length1, data.Length2)
    ensures 0 <= VoxelIndex(x, y, z, data.Length0, data.Length1) < colors.Length
    ensures colors[VoxelIndex(x, y, z, data.Length0, data.Length1)]
            == VoxelColor(data, x, y, z, gradient, inverseLerp, minTemp, maxTemp)
  {
    VoxelIndexInBounds(x, y, z, data.Length0, data.Length1, data.Length2);
    VoxelIndexRoundTrip(x, y, z, data.Length0, data.Length1, data.Length2);
  }
}
