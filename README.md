# Tangible climate data: a Dafny model

This project models the data path of a Unity project that turns NetCDF climate data (monthly 2 m temperature on a longitude/latitude grid) into things you can look at:

- **NetCDF helper.** It converts between Kelvin and Celsius. `Load` rejects a null or empty path, then a missing file, before any data is read.
- **`.nc` importer.** It turns the per-axis ranges into a slice (an origin and a shape). It chooses a value conversion: none, Kelvin to Celsius, or a custom affine map. It then flattens the nested array the NetCDF library returns into a row-major buffer and tracks the minimum and maximum of the converted values. The result is stored in an `NCAsset`.
- **`NCAsset`.** It reads that buffer back with 1, 2, 3 or any number of coordinates. Each read uses the Horner fold `index = index * shape[i] + idx[i]`.
- **Terrain generator.** It picks a heightmap resolution: the largest power of two not above the smaller spatial dimension, plus one. It shows one month as heights, each the Kelvin value converted to Celsius and divided by the maximum height. `SetMonth` regenerates the heights only when the month changes.
- **Terrain deformation.** Every frame it resets a height grid to zero. Then each child deformer, in order, blends its own contribution into every cell. There are five blend modes.
- **Volume texture export.** It writes one colour per grid cell into a flat array, at slot `x + y*sizeX + z*sizeX*sizeY`.

Modules: `Wrappers` (Option, Result), `Extended` (reals with ±infinity, for the importer's sentinels), `Arith` (uniqueness of Euclidean quotient and remainder), `NetCdf`, `NcAssets`, `NcImporter`, `TerrainGeneration`, `TerrainDeformation`, `VolumeTexture`.

All scalar data is `real`. The nested NetCDF array is a rose tree `Nested = Leaf(value) | Node(children)`. `Flatten`'s stack of enumerators is a stack of "elements still to visit" sequences. Each exception the code can throw in the modelled paths is a `Failure` value, except in the terrain generator. There, `UpdateTerrainHeights` and `SetMonth` report the out-of-range read of `t2Data` as `ok == false`, and `Start` does not propagate it (see Left out).

Two behaviours of the code are easy to misread:

- **Month selection.** `SetMonth` rounds half to even, clamps to 0..11 and shows that whole month. Each height is the Celsius value divided by `maxHeight`.
- **Fewer leaves than slots.** `Flatten` fills slots in walk order. If the data has fewer leaves than `product(shape)`, the trailing zeros of `new float[n]` stay in place. Only surplus leaves fail, with an out-of-range write (`TooManyLeaves`).

## Model

| member | source | states |
|---|---|---|
| NetCdf.CelsiusToKelvin | Assets/Scripts/NetCDF.cs:22-25 | adds the fixed offset, so the Kelvin value is above the Celsius one; `CelsiusRoundTrip` and `KelvinToCelsius` make the two conversions inverse |
| NetCdf.KelvinToCelsius | Assets/Scripts/NetCDF.cs:27-30 | converting the result back with `CelsiusToKelvin` gives the input, and the Celsius value is below the Kelvin value |
| NetCdf.CelsiusRoundTrip | Assets/Scripts/NetCDF.cs:22-30 | Celsius to Kelvin to Celsius is the identity |
| NetCdf.KelvinToCelsiusStrictlyMonotone | Assets/Scripts/NetCDF.cs:27-30 | the conversion preserves `<` and `==` in both directions |
| NetCdf.Load | Assets/Scripts/NetCDF.cs:8-20 | argument error exactly when the path is null or empty; file-not-found exactly when a non-empty path names no existing file; otherwise the reader's data for that path |
| NetCdf.LoadChecksPathBeforeFileSystem | Assets/Scripts/NetCDF.cs:10-14 | for a null or empty path the outcome does not depend on the file system |
| NcAssets.ProductPositive | Assets/Scripts/Editor/NCImporter.cs:108 | the element count `shape.Aggregate((a, b) => a * b)` is at least 1 when every axis length is positive (the empty shape, where `Aggregate` throws, is handled before it is used) |
| NcAssets.FlatIndexBounds | Assets/Scripts/NCAsset.cs:29-38 | the Horner fold `index = index * shape[i] + idx[i]` (started from `idx[0]`) of in-range coordinates lies in [0, product of the axes they cover) |
| NcAssets.UnravelRoundTrip | Assets/Scripts/NCAsset.cs:29-38 | every slot of a buffer of `product(shape)` elements is the fold of in-range coordinates (the layout is onto) |
| NcAssets.FlatIndexRoundTrip | Assets/Scripts/NCAsset.cs:29-38 | the fold of full in-range coordinates can be decoded back to them (row-major, last axis fastest) |
| NcAssets.FlatIndexInjective | Assets/Scripts/NCAsset.cs:29-38 | two in-range coordinate lists with the same slot are equal |
| NcAssets.FlatIndexIgnoresOuterAxis | Assets/Scripts/NCAsset.cs:29-38 | the fold never reads `shape[0]` |
| NcAssets.InRangeReadIsInBounds | Assets/Scripts/NCAsset.cs:29-38 | if the buffer holds `product(shape)` values, every full in-range read stays inside it |
| NcAssets.NCAsset.constructor | Assets/Scripts/NCAsset.cs:6-12 | a new asset holds no variable, shape or data |
| NcAssets.NCAsset.Get1 | Assets/Scripts/NCAsset.cs:14-17 | succeeds exactly when x is a buffer index, with `data[x]`; no shape is read |
| NcAssets.NCAsset.Get2 | Assets/Scripts/NCAsset.cs:19-22 | succeeds exactly when the shape has a second axis and the general fold of (x, y) is in the buffer; the value is the element at that fold |
| NcAssets.NCAsset.Get3 | Assets/Scripts/NCAsset.cs:24-27 | the same for (x, y, z), needing three axes |
| NcAssets.NCAsset.Get | Assets/Scripts/NCAsset.cs:29-38 | fails on no coordinates or on more coordinates than axes (a single coordinate never reads the shape); otherwise succeeds exactly when the fold is in the buffer, with that element |
| NcImporter.Lower | Assets/Scripts/Editor/NCImporter.cs:66 | the origin of an axis is the smaller end of its range |
| NcImporter.Extent | Assets/Scripts/Editor/NCImporter.cs:67-68 | the length of an axis is non-negative and reaches from the origin to the larger end |
| NcImporter.SwappedRangeSameSlice | Assets/Scripts/Editor/NCImporter.cs:63-70 | swapping the two ends of a range gives the same origin and length |
| NcImporter.SliceBounds | Assets/Scripts/Editor/NCImporter.cs:61-70 | new `shape` and `origin` arrays with one entry per range, each the length and origin of that range |
| NcImporter.ProductNonNegative | Assets/Scripts/Editor/NCImporter.cs:73 | a shape of non-negative lengths has a non-negative element count |
| NcImporter.CustomConversion | Assets/Scripts/Editor/NCImporter.cs:101-104 | `v * factor + base`: the identity for factor 1 and base 0, and the constant base for factor 0 |
| NcImporter.CustomConversionInvertible | Assets/Scripts/Editor/NCImporter.cs:101-104 | with a non-zero factor, subtracting the base and dividing by the factor recovers the raw value |
| NcImporter.CustomConversionStrictlyIncreasing | Assets/Scripts/Editor/NCImporter.cs:101-104 | with a positive factor the affine map sends a smaller raw value to a smaller converted one |
| NcImporter.SelectConverter | Assets/Scripts/Editor/NCImporter.cs:75-84 | no converter exactly for `None` or a value the enum does not declare; `KelvinToCelsius` converts as `NetCDF.KelvinToCelsius`; `Custom` maps v to `v * factor + base` |
| NcImporter.ConvertAll | Assets/Scripts/Editor/NCImporter.cs:128-131 | each value is converted position by position, order and count kept; unchanged when no converter is set |
| NcImporter.RunningMinIsMinimum | Assets/Scripts/Editor/NCImporter.cs:113-134 | the running minimum is +infinity exactly for no values, is at most every value, and is one of them |
| NcImporter.RunningMaxIsMaximum | Assets/Scripts/Editor/NCImporter.cs:114-136 | the running maximum is -infinity exactly for no values, is at least every value, and is one of them |
| NcImporter.ApplyPreservesOrder | Assets/Scripts/Editor/NCImporter.cs:101-104 | Kelvin to Celsius and a custom map with a positive factor preserve `<` both ways |
| NcImporter.ConvertedMinimum | Assets/Scripts/Editor/NCImporter.cs:130-134 | for such a converter, the minimum of the converted values is the converted minimum of the raw values |
| NcImporter.ConvertedMaximum | Assets/Scripts/Editor/NCImporter.cs:130-136 | the same for the maximum |
| NcImporter.Flattened | Assets/Scripts/Editor/NCImporter.cs:108-138 | the buffer has `product(shape)` slots: the converted leaves in walk order, then zeros |
| NcImporter.VisitLeaf | Assets/Scripts/Editor/NCImporter.cs:126-138 | a leaf updates the extremes and is stored at the next slot; fails exactly when the buffer is full |
| NcImporter.RunEnumerator | Assets/Scripts/Editor/NCImporter.cs:119-140 | one popped enumerator is run to exhaustion: arrays are descended into with the enumerator saved, leaves are stored in order; fails only when more leaves remain than slots; the stack's size measure drops by the elements visited |
| NcImporter.Flatten | Assets/Scripts/Editor/NCImporter.cs:106-144 | fails exactly on an empty shape, a negative count, or more leaves than slots; otherwise returns the buffer of `Flattened` (depth-first, left-to-right leaves) with the running extremes of the converted leaves |
| NcImporter.FlattenedExtremes | Assets/Scripts/Editor/NCImporter.cs:113-138 | the returned extremes bound every stored leaf and are attained by one; with no leaves they stay +infinity and -infinity, max below min |
| NcImporter.ImportedLayout | Assets/Scripts/Editor/NCImporter.cs:116-142 | when the leaf count fills the shape, the k-th leaf in walk order lands in the cell whose row-major position is k, and every in-range cell reads the converted leaf at walk position `FlatIndex(idx)`; which tree path that leaf came from is not stated, as `GetData`'s arrays are taken in their flat enumeration order |
| NcImporter.ReadSlice | Assets/Scripts/Editor/NCImporter.cs:59-86 | the slice shape is the per-range lengths, and the outcome is the one `ExpectedSlice` gives: no ranges or surplus leaves fail, else the flattened converted leaves with their extremes |
| NcImporter.NCImporter.constructor | Assets/Scripts/Editor/NCImporter.cs:38-46 | an importer holds the given conversion, custom base and factor, selected variable and ranges |
| NcImporter.NCImporter.OnImportAsset | Assets/Scripts/Editor/NCImporter.cs:47-99 | records the data set's variables; with no selection a blank asset (no variable, shape or data, extremes 0); an out-of-range selection fails; otherwise fails exactly when `ExpectedSlice` does (no ranges, surplus leaves), and else stores the variable name, the sliced shape, the flattened converted data and its extremes |
| TerrainGeneration.FloorToNearestPowerOfTwo | Assets/Scripts/TerrainGenerator.cs:117-126 | for x ≥ 1 a power of two p with p ≤ x < 2p; 0 for x < 1 |
| TerrainGeneration.PowerOfTwoFloorUnique | Assets/Scripts/TerrainGenerator.cs:117-126 | any power of two p with p ≤ x < 2p is the result, so the contract determines it |
| TerrainGeneration.DocCommentExamples | Assets/Scripts/TerrainGenerator.cs:118-119 | 20 gives 16 and 1200 gives 1024 |
| TerrainGeneration.HeightmapResolution | Assets/Scripts/TerrainGenerator.cs:43-49 | one more than a power of two p with p ≤ min(sizeX, sizeY) < 2p; 1 when a dimension is empty |
| TerrainGeneration.HeightOf | Assets/Scripts/TerrainGenerator.cs:104-110 | the height times `maxHeight` is the Celsius temperature; with a positive maximum it is non-negative exactly at or above freezing |
| TerrainGeneration.SliceFitsIffNotPowerOfTwo | Assets/Scripts/TerrainGenerator.cs:43-49 | the resolution fits inside both data dimensions exactly when the smaller one is not a power of two |
| TerrainGeneration.PowerOfTwoDimensionOverruns | Assets/Scripts/TerrainGenerator.cs:49 | a 16 x 16 grid gets resolution 17, larger than the data |
| TerrainGeneration.RoundToInt | Assets/Scripts/TerrainGenerator.cs:75 | the nearest integer, within 1/2; exact halves go to the even neighbour |
| TerrainGeneration.Clamp | Assets/Scripts/TerrainGenerator.cs:75 | within the bounds; the value itself when inside, the nearer bound otherwise |
| TerrainGeneration.MonthFor | Assets/Scripts/TerrainGenerator.cs:74-75 | the selected month is always in 0..11 |
| TerrainGeneration.MonthForWholeMonth | Assets/Scripts/TerrainGenerator.cs:71-75 | a whole month in 0..11 selects itself |
| TerrainGeneration.TerrainGenerator.Start | Assets/Scripts/TerrainGenerator.cs:27-66 | month 0, the resolution from the two spatial dimensions, and, when the slice fits, heights showing month 0; otherwise the heights stay an empty 0 x 0 grid |
| TerrainGeneration.TerrainGenerator.UpdateTerrainHeights | Assets/Scripts/TerrainGenerator.cs:89-115 | when the slice fits, new heights of resolution x resolution, each the Celsius value of that cell of the current month over `maxHeight`; otherwise an index failure and the old heights |
| TerrainGeneration.TerrainGenerator.SetMonth | Assets/Scripts/TerrainGenerator.cs:72-83 | the month becomes the rounded, clamped argument; the same month keeps the old heights; a new month regenerates them as `UpdateTerrainHeights` does |
| TerrainGeneration.SetMonthTwice | Assets/Scripts/TerrainGenerator.cs:72-83 | a second `SetMonth` with the same value reports success and keeps the heights the first call left |
| TerrainDeformation.Blend | Assets/Scripts/TerrainDeform.cs:67-98 | h+d, h-d and h·d; Maximum is at least both and equals one of them; Minimum is at most both and equals one of them; any other mode leaves h |
| TerrainDeformation.SubtractiveUndoesAdditive | Assets/Scripts/TerrainDeform.cs:69-78 | subtracting a deform undoes adding it |
| TerrainDeformation.MaximumMinimumIdempotent | Assets/Scripts/TerrainDeform.cs:84-95 | blending the same Maximum or Minimum deform twice equals once |
| TerrainDeformation.Clamp01 | Assets/Scripts/TerrainDeform.cs:63 | the normalised distance is clamped into [0, 1] and kept when already there |
| TerrainDeformation.DeformAt | Assets/Scripts/TerrainDeform.cs:61-65 | the deform is the falloff curve at some point of [0, 1] times the deformer's normalised height, so zero height deforms nothing |
| TerrainDeformation.FalloffOnlyReadOnUnitInterval | Assets/Scripts/TerrainDeform.cs:61-65 | falloff curves that agree on [0, 1] give the same deform |
| TerrainDeformation.AppliedStep | Assets/Scripts/TerrainDeform.cs:49-103 | each further deformer blends every cell once, from that cell's old value and deform |
| TerrainDeformation.AppliedConcat | Assets/Scripts/TerrainDeform.cs:49-104 | the deformers are a left fold: a later group starts from the earlier group's result |
| TerrainDeformation.AppliedAdditiveIsSum | Assets/Scripts/TerrainDeform.cs:69-78 | with only Additive and Subtractive deformers a cell is its start value plus the signed sum of the deforms |
| TerrainDeformation.AdditiveOrderIrrelevant | Assets/Scripts/TerrainDeform.cs:49-104 | with only Additive and Subtractive deformers, swapping two groups of them changes no cell |
| TerrainDeformation.LastMaximumNeverLowers | Assets/Scripts/TerrainDeform.cs:84-95 | a Maximum pass never lowers a cell; a Minimum pass never raises one |
| TerrainDeformation.TerrainDeform.Start | Assets/Scripts/TerrainDeform.cs:15-25 | a new width x height sample grid and an empty deformer list |
| TerrainDeformation.TerrainDeform.ResetHeights | Assets/Scripts/TerrainDeform.cs:38-45 | every sample is zero |
| TerrainDeformation.TerrainDeform.BlendPass | Assets/Scripts/TerrainDeform.cs:57-103 | every cell becomes the blend of its old value with its own deform, the mode of the one deformer |
| TerrainDeformation.TerrainDeform.UpdateTerrainFromDeformers | Assets/Scripts/TerrainDeform.cs:32-107 | the same grid, the deformer list replaced by the children, and every sample the left fold of the children over zero; with no children every sample is zero |
| VolumeTexture.VoxelIndex | Assets/Scripts/Editor/CreateNCVolumeWindow.cs:65-74 | `x + yOffset + zOffset`; a cell of plane z lies in that plane's block [z·sizeX·sizeY, (z+1)·sizeX·sizeY) |
| VolumeTexture.VoxelIndexInBounds | Assets/Scripts/Editor/CreateNCVolumeWindow.cs:63-74 | every cell's slot lies in [0, sizeX*sizeY*sizeZ) |
| VolumeTexture.VoxelIndexRoundTrip | Assets/Scripts/Editor/CreateNCVolumeWindow.cs:63-74 | a cell's slot decodes back to the cell (x fastest), so no two cells share a slot |
| VolumeTexture.VoxelCoordsRoundTrip | Assets/Scripts/Editor/CreateNCVolumeWindow.cs:60-77 | every slot is the slot of the in-grid cell it decodes to, so every slot is written |
| VolumeTexture.SlotOfCell | Assets/Scripts/Editor/CreateNCVolumeWindow.cs:71-74 | a cell's slot is in the array and should hold that cell's colour |
| VolumeTexture.StoreColor | Assets/Scripts/Editor/CreateNCVolumeWindow.cs:71-74 | writing a cell's colour at its slot extends the filled prefix by one |
| VolumeTexture.CreateVolumeColors | Assets/Scripts/Editor/CreateNCVolumeWindow.cs:60-77 | an array of sizeX*sizeY*sizeZ colours, each slot holding the gradient at the inverse-lerped Celsius temperature of its cell; the data is only read |
| VolumeTexture.CellColorInItsSlot | Assets/Scripts/Editor/CreateNCVolumeWindow.cs:63-77 | read by cell: the colour of (x, y, z) is at `x + y*sizeX + z*sizeX*sizeY` |

## Left out

- I/O and foreign code are parameters. They are the NetCDF library (`DataSet.Open`, `Variable.GetData`, `LoadData`), `File.Exists`, Unity's terrain, texture and asset APIs, `AnimationCurve.Evaluate`, `Gradient.Evaluate`, `Mathf.InverseLerp` and `Vector2.Distance`. They appear as function arguments or as the resulting values; `SetHeights`, `SetPixels` and the asset calls are the arrays they receive.
- IEEE single-precision arithmetic is not modelled. Values are exact reals, so the model has no rounding of `273.15f`, no NaN in the min/max comparisons, and no `Mathf.Log` error near exact powers of two.
- C# 32-bit integer overflow is not modelled. This covers the flat index, `product(shape)` and the voxel index, which are unbounded integers here.
- NcImporter.Flatten: the unboxing cast `(float)iterator.Current` is not modelled, because leaves are reals by construction. Multi-dimensional arrays returned by `GetData` are represented by their flat enumeration order (a node of leaves).
- NcImporter.NCImporter.OnImportAsset: the exceptions `Variable.GetData` may raise for bad slices are not modelled. The `varInfo != null` test is not modelled either, because the list it reads from never holds null. Logging, `Dispose` and the `ctx` calls carry no data and are left out.
- TerrainGeneration.TerrainGenerator.Start: when the slice does not fit the data, the source's `Start` throws out of `UpdateTerrainHeights` and never assigns the terrain to its components. The model does not propagate that exception: the constructor completes, its contract says the heights stay the empty 0 x 0 grid, and the failure is visible only as `SliceInBounds()` being false.
- TerrainGeneration.TerrainGenerator.Start: Unity's own clamping of `heightmapResolution` and the terrain size are not modelled. The field is taken as assigned. `NetCDF.Load` is done by the caller: `Start` receives its array.
- A non-zero `maxHeight` is part of the terrain generator's `Valid`. A zero maximum height would divide by zero, giving infinities in floats, which reals do not have.
- The deform inputs are given per deformer. These are the position normalised by the terrain size, the radius `localScale.x / 10`, and the distance (left as a function of the cell). `TerrainDeformer` is otherwise a data holder.
- TerrainDeformation.TerrainDeform.UpdateTerrainFromDeformers: `GetComponentsInChildren` is its `children` argument.
- Editor GUI code (`GradientToolsWindow`, `NCImporterEditor`, `NCAssetEditor`, the `CreateGUI` half of `CreateNCVolumeWindow`), `TerrainTweener` and `TestPhysics` are not part of this model.
