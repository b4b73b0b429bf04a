/**
 * Terrain deformation: every frame the height samples are reset to zero and
 * then each child deformer, in order, blends its own contribution into every
 * cell.
 */
module TerrainDeformation {

  /**
   * `TerrainDeformer.BlendMode`. A C# enum variable can hold a value no member
   * declares; `Undeclared` stands for those.
   */
  datatype BlendMode = Additive | Subtractive | Multiply | Maximum | Minimum | Undeclared(value: int)

  /** The `switch` on the blend mode, for current height h and deform d. */
  function Blend(mode: BlendMode, h: real, d: real): (r: real)
    ensures mode == Additive ==> r == h + d
    ensures mode == Subtractive ==> r == h - d
    ensures mode == Multiply ==> r == h * d
    ensures mode == Maximum ==> r >= h && r >= d && (r == h || r == d)
    ensures mode == Minimum ==> r <= h && r <= d && (r == h || r == d)
    ensures mode.Undeclared? ==> r == h
  {
    match mode
    case Additive => h + d
    case Subtractive => h - d
    case Multiply => h * d
    case Maximum => if d >= h then d else h
    case Minimum => if d <= h then d else h
    case Undeclared(_) => h
  }

  /** A Subtractive pass with the same deform undoes an Additive one. */
  lemma SubtractiveUndoesAdditive(h: real, d: real)
    ensures Blend(Subtractive, Blend(Additive, h, d), d) == h
  {
  }

  /** Blending with the same Maximum (or Minimum) deform twice is the same as once. */
  lemma MaximumMinimumIdempotent(h: real, d: real)
    ensures Blend(Maximum, Blend(Maximum, h, d), d) == Blend(Maximum, h, d)
    ensures Blend(Minimum, Blend(Minimum, h, d), d) == Blend(Minimum, h, d)
  {
  }

  /** `Mathf.Clamp01`. */
  function Clamp01(v: real): (r: real)
    ensures 0.0 <= r <= 1.0
    ensures 0.0 <= v <= 1.0 ==> r == v
    ensures v < 0.0 ==> r == 0.0
    ensures v > 1.0 ==> r == 1.0
  {
    if v < 0.0 then 0.0 else if v > 1.0 then 1.0 else v
  }

  /**
   * What one deformer contributes. `falloff` is its `falloffCurve`,
   * `heightNormalized` its local height over the terrain height, and
   * `distance(x, y)` the distance from sample (x, y) to the deformer over the
   * deformer's radius, before clamping.
   */
  datatype Deformer = Deformer(
    blendMode: BlendMode,
    falloff: real -> real,
    heightNormalized: real,
    distance: (int, int) -> real)

  /** `deform` for one sample: the falloff at the clamped distance, scaled by the height. */
  function DeformAt(d: Deformer, x: int, y: int): (deform: real)
    ensures exists t :: 0.0 <= t <= 1.0 && deform == d.falloff(t) * d.heightNormalized
    ensures d.heightNormalized == 0.0 ==> deform == 0.0
  {
    var t := Clamp01(d.distance(x, y));
    d.falloff(t) * d.heightNormalized
  }

  /** The falloff curve is only evaluated on [0, 1]: curves that agree there deform alike. */
  lemma FalloffOnlyReadOnUnitInterval(d: Deformer, e: Deformer, x: int, y: int)
    requires e.heightNormalized == d.heightNormalized && e.distance == d.distance
    requires forall t :: 0.0 <= t <= 1.0 ==> e.falloff(t) == d.falloff(t)
    ensures DeformAt(e, x, y) == DeformAt(d, x, y)
  {
    var t := Clamp01(d.distance(x, y));
    assert e.falloff(t) == d.falloff(t);
  }

  /** The height of cell (x, y) after blending the deformers `ds` in list order onto h. */
  function Applied(h: real, ds: seq<Deformer>, x: int, y: int): real
    decreases |ds|
  {
    if |ds| == 0 then h
    else
      var last := ds[|ds| - 1];
      Blend(last.blendMode, Applied(h, ds[..|ds| - 1], x, y), DeformAt(last, x, y))
  }

  /** Blending a prefix one deformer longer is one more blend step. */
  lemma AppliedStep(h: real, ds: seq<Deformer>, k: int, x: int, y: int)
    requires 0 <= k < |ds|
    ensures Applied(h, ds[..k + 1], x, y) == Blend(ds[k].blendMode, Applied(h, ds[..k], x, y), DeformAt(ds[k], x, y))
  {
    assert ds[..k + 1][..k] == ds[..k];
  }

  /** The fold splits at any point: later deformers start from the earlier ones' result. */
  lemma {:induction false} AppliedConcat(h: real, a: seq<Deformer>, b: seq<Deformer>, x: int, y: int)
    ensures Applied(h, a + b, x, y) == Applied(Applied(h, a, x, y), b, x, y)
    decreases |b|
  {
    if |b| == 0 {
      assert a + b == a;
    } else {
      var b' := b[..|b| - 1];
      assert (a + b)[..|a + b| - 1] == a + b';
      AppliedConcat(h, a, b', x, y);
    }
  }

  predicate AdditiveOrSubtractive(d: Deformer) {
    d.blendMode == Additive || d.blendMode == Subtractive
  }

  /** The signed sum of the deforms of Additive and Subtractive deformers. */
  function SignedSum(ds: seq<Deformer>, x: int, y: int): real
    decreases |ds|
  {
    if |ds| == 0 then 0.0
    else
      var last := ds[|ds| - 1];
      SignedSum(ds[..|ds| - 1], x, y) + (if last.blendMode == Subtractive then - DeformAt(last, x, y) else DeformAt(last, x, y))
  }

  /** Only Additive and Subtractive deformers: the height is h plus the signed sum. */
  lemma {:induction false} AppliedAdditiveIsSum(h: real, ds: seq<Deformer>, x: int, y: int)
    requires forall i :: 0 <= i < |ds| ==> AdditiveOrSubtractive(ds[i])
    ensures Applied(h, ds, x, y) == h + SignedSum(ds, x, y)
    decreases |ds|
  {
    if |ds| > 0 {
      AppliedAdditiveIsSum(h, ds[..|ds| - 1], x, y);
    }
  }

  lemma {:induction false} SignedSumConcat(a: seq<Deformer>, b: seq<Deformer>, x: int, y: int)
    ensures SignedSum(a + b, x, y) == SignedSum(a, x, y) + SignedSum(b, x, y)
    decreases |b|
  {
    if |b| == 0 {
      assert a + b == a;
    } else {
      var b' := b[..|b| - 1];
      assert (a + b)[..|a + b| - 1] == a + b';
      SignedSumConcat(a, b', x, y);
    }
  }

  /** With only Additive and Subtractive deformers, swapping two groups of them changes nothing. */
  lemma AdditiveOrderIrrelevant(h: real, a: seq<Deformer>, b: seq<Deformer>, x: int, y: int)
    requires forall i :: 0 <= i < |a| ==> AdditiveOrSubtractive(a[i])
    requires forall i :: 0 <= i < |b| ==> AdditiveOrSubtractive(b[i])
    ensures Applied(h, a + b, x, y) == Applied(h, b + a, x, y)
  {
    assert forall i :: 0 <= i < |a + b| ==> AdditiveOrSubtractive((a + b)[i]);
    assert forall i :: 0 <= i < |b + a| ==> AdditiveOrSubtractive((b + a)[i]);
    AppliedAdditiveIsSum(h, a + b, x, y);
    AppliedAdditiveIsSum(h, b + a, x, y);
    SignedSumConcat(a, b, x, y);
    SignedSumConcat(b, a, x, y);
  }

  /** A Maximum deformer at the end never lowers a cell; a Minimum one never raises it. */
  lemma {:induction false} LastMaximumNeverLowers(h: real, ds: seq<Deformer>, d: Deformer, x: int, y: int)
    ensures d.blendMode == Maximum ==> Applied(h, ds + [d], x, y) >= Applied(h, ds, x, y)
    ensures d.blendMode == Minimum ==> Applied(h, ds + [d], x, y) <= Applied(h, ds, x, y)
  {
    assert (ds + [d])[..|ds + [d]| - 1] == ds;
  }

  /** The `TerrainDeform` component: its height samples and its list of deformers. */
  class TerrainDeform {
    var heightSamples: array2<real>
    var deformers: seq<Deformer>

    /** `Start`: a samples grid the size of the heightmap texture, and no deformers. */
    constructor Start(width: nat, height: nat)
      ensures fresh(heightSamples)
      ensures heightSamples.Length0 == width && heightSamples.Length1 == height
      ensures deformers == []
    {
      heightSamples := new real[width, height];
      deformers := [];
    }

    /** The reset loop of `UpdateTerrainFromDeformers`: every sample becomes zero. */
    method ResetHeights()
      modifies heightSamples
      ensures forall x, y :: 0 <= x < heightSamples.Length0 && 0 <= y < heightSamples.Length1 ==>
                heightSamples[x, y] == 0.0
    {
      for x := 0 to heightSamples.Length0
        invariant forall i, j :: 0 <= i < x && 0 <= j < heightSamples.Length1 ==> heightSamples[i, j] == 0.0
      {
        for y := 0 to heightSamples.Length1
          invariant forall i, j :: 0 <= i < x && 0 <= j < heightSamples.Length1 ==> heightSamples[i, j] == 0.0
          invariant forall j :: 0 <= j < y ==> heightSamples[x, j] == 0.0
        {
          heightSamples[x, y] := 0.0;
        }
      }
    }

    /**
     * One deformer's pass of `UpdateTerrainFromDeformers`: every cell, once,
     * is blended with that cell's deform and nothing else.
     */
    method BlendPass(deformer: Deformer)
      modifies heightSamples
      ensures forall x, y :: 0 <= x < heightSamples.Length0 && 0 <= y < heightSamples.Length1 ==>
                heightSamples[x, y] == Blend(deformer.blendMode, old(heightSamples[x, y]), DeformAt(deformer, x, y))
    {
      var samplesX := heightSamples.Length0;
      var samplesY := heightSamples.Length1;
      for x := 0 to samplesX
        invariant forall i, j :: 0 <= i < x && 0 <= j < samplesY ==>
                    heightSamples[i, j] == Blend(deformer.blendMode, old(heightSamples[i, j]), DeformAt(deformer, i, j))
        invariant forall i, j :: x <= i < samplesX && 0 <= j < samplesY ==> heightSamples[i, j] == old(heightSamples[i, j])
      {
        for y := 0 to samplesY
          invariant forall i, j :: 0 <= i < x && 0 <= j < samplesY ==>
                      heightSamples[i, j] == Blend(deformer.blendMode, old(heightSamples[i, j]), DeformAt(deformer, i, j))
          invariant forall i, j :: x < i < samplesX && 0 <= j < samplesY ==> heightSamples[i, j] == old(heightSamples[i, j])
          invariant forall j :: 0 <= j < y ==>
                      heightSamples[x, j] == Blend(deformer.blendMode, old(heightSamples[x, j]), DeformAt(deformer, x, j))
          invariant forall j :: y <= j < samplesY ==> heightSamples[x, j] == old(heightSamples[x, j])
        {
          var deform := DeformAt(deformer, x, y);
          match deformer.blendMode {
            case Additive => heightSamples[x, y] := heightSamples[x, y] + deform;
            case Subtractive => heightSamples[x, y] := heightSamples[x, y] - deform;
            case Multiply => heightSamples[x, y] := heightSamples[x, y] * deform;
            case Maximum =>
              var height := heightSamples[x, y];
              heightSamples[x, y] := if deform >= height then deform else height;
            case Minimum =>
              var height := heightSamples[x, y];
              heightSamples[x, y] := if deform <= height then deform else height;
            case Undeclared(_) =>
          }
        }
      }
    }

    /**
     * `UpdateTerrainFromDeformers`, with `children` the active deformers
     * `GetComponentsInChildren` returns, in hierarchy order. The samples
     * that go to `SetHeights` are the left fold of the deformers over zero.
     */
    method UpdateTerrainFromDeformers(children: seq<Deformer>)
      modifies this`deformers, heightSamples
      ensures heightSamples == old(heightSamples)
      ensures deformers == children
      ensures forall x, y :: 0 <= x < heightSamples.Length0 && 0 <= y < heightSamples.Length1 ==>
                heightSamples[x, y] == Applied(0.0, children, x, y)
      ensures children == [] ==>
                forall x, y :: 0 <= x < heightSamples.Length0 && 0 <= y < heightSamples.Length1 ==>
                  heightSamples[x, y] == 0.0
    {
      ResetHeights();
      deformers := children;
      for k := 0 to |deformers|
        invariant deformers == children
        invariant forall i, j :: 0 <= i < heightSamples.Length0 && 0 <= j < heightSamples.Length1 ==>
                    heightSamples[i, j] == Applied(0.0, deformers[..k], i, j)
      {
        BlendPass(deformers[k]);
        forall i, j | 0 <= i < heightSamples.Length0 && 0 <= j < heightSamples.Length1
          ensures heightSamples[i, j] == Applied(0.0, deformers[..k + 1], i, j)
        {
          AppliedStep(0.0, deformers, k, i, j);
        }
      }
      assert deformers[..|deformers|] == children;
    }
  }
}
