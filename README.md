# GPR point-cloud and mesh pipeline: a verified model

`gpr2.21.py` is a Flask application. It turns an uploaded ground-penetrating-radar survey (a CSV of
x, y, depth and amplitude samples) into a browser VR scene. The scene has three kinds of output:

- amplitude layers, written as PLY point clouds;
- an interpolated amplitude surface, written as an OBJ mesh;
- horizontal depth slices, also written as OBJ meshes.

This project models the deterministic core of that pipeline in Dafny and proves what that core promises.

- **Settings** (`settings.dfy`)
  - The `DEFAULT_SETTINGS` dictionary.
  - The form coercion of `upload_file`: a value reading `true`/`false` in any case becomes a boolean; otherwise a value with a dot becomes a float and any other an integer; a failed conversion keeps the raw string.
  - It is written as a loop over the default keys and proved equal to a map comprehension.
- **Normalisation** (`normalise.dfy`). A `PointTable` class whose column fields are updated in place, as the DataFrame is:
  - depth inversion `z = -|z|`;
  - centring of x and y on their means;
  - the rescale by `10 / max_range` when the larger horizontal range exceeds 50.
- **Processing** (`pipeline.dfy`). `process_gpr_data` from the numeric table to the written layers:
  - the column check and the empty-table check;
  - the normalisation;
  - the strict filter `abs_amp > threshold`;
  - the binning;
  - the layer loop.
  
  Each check and each foreign routine modelled here that can end the job with status `error` has its own `Failure` case.
- **Layers** (`layers.dfy`). The layer loop:
  - the rows of each iso level;
  - the cap of `max_points_per_layer` by sampling;
  - the palette colour;
  - one PLY file per non-empty level;
  - the `total_output_points` counter.
- **Palette** (`palette.dfy`). `create_iso_colormap`: a cyclic look-up into five fixed colours.
- **Mesh assembly** (`mesh.dfy`, `grids.dfy`). The vertex, colour and face loops shared by `generate_surface_mesh` and `generate_depth_slices`:
  - the vertices and colours of an R x R lattice, row-major;
  - two triangles per cell;
  - the two colour ramps.
- **Surfaces** (`surfaces.dfy`).
  - The surface mesh with its interpolation fallback.
  - The slice-depth selection: the interior points of an evenly spaced run from the top of the survey to its bottom, each kept when at least 10 points lie strictly within `(z_max - z_min) / (2 * num_slices)` of it.
- **Writers** (`serialise.dfy`). `write_obj_mesh` and `write_ply_fast` as the sequences of lines they emit. Each is paired with a reader, and a round-trip lemma shows that the reader recovers what was written.

Shared values live in `geometry.dfy`, column statistics in `stats.dfy`, and `Option` in `wrappers.dfy`.

The foreign numerical routines enter as parameters or inputs:

- the CSV reader and numeric coercion: the numeric rows and the column count are inputs;
- `quantile`, `qcut`, `cut` and `DataFrame.sample`: function parameters;
- `griddata` and `gaussian_filter`: interpolation outcomes are inputs and smoothing is a function parameter;
- `float()` and `int()` in the form coercion: function parameters.

A routine that can raise returns `None`, and the model takes the branch the source takes when it catches the exception. Only these properties are assumed of these routines:

- a binning gives every value either a bin code or NaN, one entry per value;
- a sample without replacement has the requested size and is drawn from its input;
- smoothing keeps the grid shape.

The layer loop at gpr2.21.py:1163-1170 counts `range(nunique())`, as though the bin codes were the contiguous `0 .. n-1`. The codes `qcut` returns with `duplicates='drop'` can have gaps. `Pipeline.Process` takes a flag that chooses the loop bound:

- `false` is the source as written, counting to the number of distinct codes; `Pipeline.ProcessGprData` runs this version;
- `true` is the corrected bound, one more than the largest code.

The consequence is recorded under Findings.

A binning can leave a code NaN. For instance, `qcut` leaves every code NaN when all filtered amplitudes are equal. A NaN code never equals a level, and `nunique()` does not count it. The model therefore runs the layer loop over the rows that got a code. `Layers.CodedLevelPoints` and `Layers.CodedLabelSet` prove that this is the source's `== level` mask over all rows, and its `nunique()`.

## Model

| member | source | states |
|---|---|---|
| Settings.Override | gpr2.21.py:1281-1296 | the loop over the dictionary's keys yields exactly `Overridden`: every default key is kept, and a key the form has takes its coerced value |
| Settings.ApplyForm | gpr2.21.py:1281-1296 | the settings a job runs with are `DEFAULT_SETTINGS` overridden by the coerced form values |
| Settings.FormSettingsKeys | gpr2.21.py:1281-1284 | the form neither adds nor removes keys; a key absent from the form keeps its default; a present key takes `Coerce` of its form string |
| Settings.EmptyFormKeepsDefaults | gpr2.21.py:32-66 | an empty form leaves the 19 defaults unchanged |
| Settings.Coerce | gpr2.21.py:1285-1296 | the result is a boolean exactly when the lower-cased value is `true` or `false`, and true exactly for `true`; otherwise a value with a dot becomes the float `float()` returns and one without the integer `int()` returns, and the raw string is kept exactly when that parser raises |
| Settings.CoerceIgnoresCase | gpr2.21.py:1285-1286 | two values that lower-case alike are either both the same boolean or both not booleans |
| Settings.Lower | gpr2.21.py:1285 | `str.lower()` keeps the length; no upper-case letter remains; each upper-case letter becomes its lower-case partner; every other character is unchanged |
| Settings.LowerIdempotent | gpr2.21.py:1285 | lower-casing twice gives the same as lower-casing once |
| Normalise.ZipColumnsOf | gpr2.21.py:1071-1073 | splitting the rows into columns and zipping the columns back gives the rows |
| Normalise.PointTable.constructor | gpr2.21.py:1071-1073 | the table holds the x, y, z and amp columns of the cleaned rows |
| Normalise.PointTable.InvertDepth | gpr2.21.py:1081-1082 | only the depth column changes, to `-abs(z)`, and so every depth is at most 0 |
| Normalise.PointTable.Centre | gpr2.21.py:1084-1087 | x and y are shifted by their means and end with mean 0; z is untouched |
| Normalise.PointTable.Rescale | gpr2.21.py:1089-1095 | x, y and z are scaled by `10 / max_range` exactly when `max_range > 50`, which leaves a larger horizontal range of exactly 10; otherwise nothing changes |
| Normalise.Normalised | gpr2.21.py:1080-1095 | inversion, centring and rescale, in the source's order, keep every column's length and never touch the amplitudes |
| Normalise.NormalisedShape | gpr2.21.py:1080-1095 | the three steps keep the columns aligned, keep the row count and never touch the amplitudes |
| Normalise.InvertedDepths | gpr2.21.py:1081-1082 | after inversion every depth is non-positive with its old magnitude; x, y and amp are unchanged |
| Normalise.CentredMeans | gpr2.21.py:1084-1087 | after centring, x and y have mean 0, and z and amp are unchanged |
| Normalise.ScaledBySpan | gpr2.21.py:1092-1095 | a positive factor multiplies the larger horizontal range by that factor |
| Normalise.RescaledSpan | gpr2.21.py:1089-1095 | a survey whose larger range exceeds 50 ends with larger range exactly 10; any other survey is left unchanged |
| Normalise.RescaledIdempotent | gpr2.21.py:1089-1095 | rescaling a second time changes nothing |
| Normalise.NormalisedSpanBound | gpr2.21.py:1080-1095 | after normalisation the larger horizontal range is at most 50 |
| Stats.CentredMeanIsZero | gpr2.21.py:1085-1087 | subtracting a column's mean leaves a column whose sum and mean are 0 |
| Stats.RangeScaled | gpr2.21.py:1090-1095 | scaling a column by a positive factor scales its range by that factor |
| Stats.LargerRangeScaled | gpr2.21.py:1090-1095 | scaling two columns by a common positive factor scales the larger of their ranges by that factor |
| Stats.NegAbsNonPositive | gpr2.21.py:1082 | `-abs` gives non-positive values with unchanged magnitudes |
| Pipeline.MaxIndex | gpr2.21.py:1058-1059 | the result bounds the four column indices and is one of them |
| Pipeline.AbsAmps | gpr2.21.py:1098 | one non-negative value per row, equal to the row's amplitude or to its negation |
| Pipeline.Retained | gpr2.21.py:1100 | the filter keeps only table rows whose absolute amplitude is strictly above the threshold |
| Pipeline.RetainedKeeps | gpr2.21.py:1100 | every copy of every row strictly above the threshold survives and no other row does: each row occurs in the result as often as in the table when it is above the threshold, and not at all otherwise |
| Pipeline.RetainedInOrder | gpr2.21.py:1100 | the filter keeps row order: filtering two consecutive runs of rows is filtering each and joining the results |
| Pipeline.RetainedEmpty | gpr2.21.py:1100-1102 | the filtered table is empty exactly when no row is strictly above the threshold |
| Pipeline.Bin | gpr2.21.py:1157-1161 | when both binning routines give one code or NaN per value, so does the result; the binning raises exactly when `qcut` and then `cut` both raise |
| Pipeline.Process | gpr2.21.py:1058-1194 | the job fails with the column error exactly when the column count is at most the largest index, and with no numeric data exactly when the columns exist and no row survived; a completed job has one PLY file per layer, each that layer's file, and counts every written point |
| Pipeline.LayersOf | gpr2.21.py:1157-1194 | the binning and the layer loop either complete or fail in the binning or in `sample`; a completed loop has one file per layer and counts every written point |
| Pipeline.ProcessGprData | gpr2.21.py:1058-1194 | run step by step on the point table, with the loop bound as written (`nunique()`), the job ends with the outcome `Process` defines for that bound |
| Pipeline.NormalisedAmps | gpr2.21.py:1080-1099 | normalisation keeps every absolute amplitude, so the threshold is a quantile of the uploaded amplitudes |
| Pipeline.NothingAboveThresholdCase | gpr2.21.py:1097-1105 | past the early checks, the job fails with 'No points after filtering' exactly when no uploaded absolute amplitude exceeds the threshold |
| Pipeline.SampleRaisedCase | gpr2.21.py:1170-1176 | once rows are filtered and binned, the job fails in `sample` exactly when `max_points_per_layer` is negative and some visited level has rows; with the corrected bound, exactly when the cap is negative and some row got a code |
| Pipeline.LayersOfSampleRaised | gpr2.21.py:1170-1176 | the layer loop over the binned rows fails exactly when the cap is negative and a visited level has coded rows |
| Pipeline.CompletedShape | gpr2.21.py:1058-1194 | a completed job passed every check; its layers, files and total are those of the layer loop over the filtered rows that got a code, up to the chosen bound (`nunique()` as written); a negative cap completes only when no visited level has rows |
| Pipeline.CompletedLayers | gpr2.21.py:1097-1194 | a completed job wrote only normalised rows strictly above the threshold, at most `max_points_per_layer` per layer, in strictly increasing level order |
| Pipeline.CompletedWritesAll | gpr2.21.py:1163-1194 | when the cap is at least the row count and the loop visits every code (as written, exactly when the codes are contiguous; always with the corrected bound), `total_output_points` is the number of filtered rows that got a code, and so all filtered rows when none is NaN |
| Pipeline.UncodedWritesNothing | gpr2.21.py:1157-1194 | when the binning leaves every code NaN, the job completes with no layer and `total_output_points` 0, under either loop bound |
| Pipeline.ProcessDropsPoints | gpr2.21.py:1163-1194 | on a three-row survey whose two filtered rows get codes [0, 3], the job completes but writes 1 of the 2 rows as written and both with the corrected bound |
| Layers.LevelPoints | gpr2.21.py:1171 | a level's selection is no larger than the table |
| Layers.LevelPointsSubset | gpr2.21.py:1171 | a level's selection is drawn from the filtered rows |
| Layers.LevelPointsHolds | gpr2.21.py:1171 | every row labelled with a level is selected for that level |
| Layers.LevelPointsLabelled | gpr2.21.py:1171 | every row selected for a level is a row labelled with that level |
| Layers.CodedLabels | gpr2.21.py:1163-1171 | the codes present, in row order: all of them when no code is NaN, none when every code is NaN |
| Layers.CodedPoints | gpr2.21.py:1171 | the rows with a code, one per present code, drawn from the rows; all rows when no code is NaN |
| Layers.CodedLevelPoints | gpr2.21.py:1171 | selecting a level among the coded rows gives exactly the source's `iso_range == level` mask over all rows, which no NaN code matches |
| Layers.CodedLabelSet | gpr2.21.py:1163 | the distinct labels of the coded rows are the codes that occur, so their count is `nunique()`, which skips NaN |
| Layers.LevelLayer | gpr2.21.py:1170-1173 | a level contributes one layer, at that level, exactly when it has rows; empty levels are skipped |
| Layers.WriteLevel | gpr2.21.py:1171-1185 | one loop pass fails exactly when the cap is negative and the level has rows; otherwise it yields the level's capped layer in its palette colour |
| Layers.LayerLoopFails | gpr2.21.py:1170-1176 | the loop raises exactly when the cap is negative and some visited level has rows |
| Layers.WriteLayers | gpr2.21.py:1165-1194 | the loop yields `LayerLoop`'s layers, with `ply_files` their files and `total_output_points` their total |
| Layers.CappedFacts | gpr2.21.py:1171-1176 | a non-empty level's layer holds min(level size, cap) rows drawn from the rows labelled with that level, in the level's palette colour |
| Layers.LayersFacts | gpr2.21.py:1170-1185 | every written layer belongs to a visited non-empty level, holds min(level size, cap) rows drawn from that level's own rows, in its palette colour, and levels increase |
| Layers.WrittenPoints | gpr2.21.py:1171-1176 | no layer exceeds the cap, and every written point is a filtered row |
| Layers.LayersCoverFilledLevels | gpr2.21.py:1170-1173 | a level gets a layer exactly when it is visited and non-empty |
| Layers.LayerFileContents | gpr2.21.py:1183-1191 | a layer's PLY file declares the layer size and reads back as the layer's positions, all in its colour |
| Layers.TotalPointsBound | gpr2.21.py:1194 | `total_output_points` is at most the row count of the visited levels, and equal to it when no level exceeds the cap |
| Layers.LevelSizesCount | gpr2.21.py:1170-1171 | the levels below k partition the rows labelled below k |
| Layers.DistinctLabels | gpr2.21.py:1163 | `nunique()` is at least 1 for a non-empty table, never exceeds one more than the largest code, and equals it exactly when every code below the largest occurs |
| Layers.LabelBound | gpr2.21.py:1163 | the corrected loop bound exceeds every bin label |
| Layers.LabelBoundWritesAll | gpr2.21.py:1163-1194 | with the corrected bound and no level over the cap, every filtered row is written |
| Layers.LabelBoundCoversEveryPoint | gpr2.21.py:1163-1173 | with the corrected bound, every filtered row's level gets a layer |
| Layers.DistinctBoundDropsPoints | gpr2.21.py:1163-1173 | with the bound as written, labels [0, 3] give two distinct labels and write one point of two; the corrected bound 4 writes both |
| Palette.IsoColour | gpr2.21.py:260-269 | every colour has byte components |
| Palette.IsoColourInPalette | gpr2.21.py:262-269 | every level gets one of the five palette colours |
| Palette.IsoColourIgnoresTotal | gpr2.21.py:260-269 | the colour does not depend on the level count |
| Palette.IsoColourPeriodic | gpr2.21.py:269 | the palette repeats every five levels |
| Palette.IsoColourFirstLevels | gpr2.21.py:262-268 | levels 0 to 4 are red, orange, yellow, green and blue, in that order |
| Palette.IsoColourCovers | gpr2.21.py:262-269 | any five consecutive levels use all five palette colours |
| Palette.IsoColourDistinct | gpr2.21.py:262-269 | levels fewer than five apart get different colours |
| MeshAssembly.Normalised | gpr2.21.py:143-148 | the surface value n satisfies n (max - min) = v - min and the slice value n satisfies n peak = v; it lies in [0, 1] for values in the ramp's range, and is 0 on a flat surface grid or on a slice grid with no positive value |
| MeshAssembly.NormalisedMonotone | gpr2.21.py:143-148 | a larger amplitude never gets a smaller normalised value, on either ramp |
| MeshAssembly.Colour | gpr2.21.py:154-159 | red is the normalised amplitude and blue its complement; green is 0.2 on the surface and 0.3 times blue on a slice; in-range values give unit colours |
| MeshAssembly.CellFaceWithin | gpr2.21.py:164-171 | every triangle of a cell names vertices below R * R |
| MeshAssembly.CellFaces | gpr2.21.py:168-171 | cell (i, j) contributes `[idx, idx+1, idx+R]` and `[idx+1, idx+R+1, idx+R]` with `idx = i*R + j` |
| MeshAssembly.MeshFaceAt | gpr2.21.py:164-171 | the mesh has 2 (R-1)^2 faces, and faces 2 (i (R-1) + j) and the one after it are the two triangles of cell (i, j) |
| MeshAssembly.GridMeshShape | gpr2.21.py:150-171 | the lattice mesh has R * R vertices and colours, 2 (R-1)^2 faces, and every face index names a vertex |
| MeshAssembly.GridMeshNode | gpr2.21.py:150-159 | node (i, j) is vertex i * R + j, at (xi[j], yi[i], z[i][j]), with the ramp colour of amp[i][j] |
| MeshAssembly.GridMeshColoursInUnit | gpr2.21.py:143-159 | if every amplitude lies in the ramp's range, every vertex colour lies in the unit cube |
| MeshAssembly.AssembleNodes | gpr2.21.py:150-159 | the nested vertex and colour loops produce the lattice mesh's vertices and colours |
| MeshAssembly.AssembleFaces | gpr2.21.py:164-171 | the nested face loops produce the lattice mesh's faces |
| MeshAssembly.AssembleMesh | gpr2.21.py:150-173 | the three loops together produce the lattice mesh: well-formed, with R * R vertices and 2 (R-1)^2 faces |
| Grids.Linspace | gpr2.21.py:113-114 | `np.linspace(a, b, n)` has n values, starting at a and ending at b |
| Grids.LinspaceDecreasing | gpr2.21.py:194 | from a larger start to a smaller end, the values strictly decrease |
| Grids.GridMin | gpr2.21.py:144 | the grid minimum bounds every entry from below |
| Grids.GridMinAttained | gpr2.21.py:144 | the grid minimum is an entry |
| Grids.GridMax | gpr2.21.py:144 | the grid maximum bounds every entry from above |
| Grids.GridMaxAttained | gpr2.21.py:221 | the grid maximum is an entry |
| Surfaces.SurfaceFallback | gpr2.21.py:127-133 | when interpolation raised, the elevation and amplitude grids are filled with the mean depth and the mean amplitude |
| Surfaces.GenerateSurfaceMesh | gpr2.21.py:103-182 | no surface exactly when the resolution is below 1; otherwise the lattice mesh of the smoothed grids, with the bounding box and elevation range as metadata; well-formed, with R * R vertices, 2 (R-1)^2 faces and unit colours |
| Surfaces.WindowCount | gpr2.21.py:204-205 | a window count is at most the point count, and 0 for a non-positive tolerance |
| Surfaces.SliceDepths | gpr2.21.py:193-194 | there are exactly `num_slices` candidate depths |
| Surfaces.Tolerance | gpr2.21.py:204 | the window half-width is positive exactly when the survey spans some depth, is at most half that span, and is more than half the spacing of the candidates |
| Surfaces.SliceDepthsInterior | gpr2.21.py:193-194 | the candidate depths lie strictly between the lowest and highest points, decreasing from the top |
| Surfaces.Kept | gpr2.21.py:202-208 | the kept candidates are exactly those whose window holds at least 10 points, in increasing order |
| Surfaces.SliceGrid | gpr2.21.py:214-218 | a slice's amplitude grid is 50 x 50: the interpolated grid when there is one, and all zeros when `griddata` or smoothing raised |
| Surfaces.KeptSpansDepth | gpr2.21.py:204-207 | a kept slice implies the survey spans a positive depth range |
| Surfaces.SliceAtFacts | gpr2.21.py:220-247 | a slice mesh is the well-formed 50 x 50 lattice mesh, with every vertex at the slice depth |
| Surfaces.DepthSlicesFacts | gpr2.21.py:184-254 | at most `num_slices` slices; each slice is at a candidate depth strictly inside the depth range whose window held at least 10 points; its vertices all lie at that depth; its mesh is the well-formed 2500-vertex lattice |
| Surfaces.DepthSlicesDecreasing | gpr2.21.py:194-202 | slices come out in strictly decreasing depth |
| Surfaces.DepthSlicesSelection | gpr2.21.py:202-208 | a candidate depth yields a slice exactly when its window holds at least 10 points |
| Surfaces.DepthSliceColoursInUnit | gpr2.21.py:220-239 | with a non-negative amplitude grid, every slice colour lies in the unit cube |
| Surfaces.MeshSlice | gpr2.21.py:220-254 | one slice is meshed at its depth and is well-formed |
| Surfaces.GenerateDepthSlices | gpr2.21.py:184-258 | the slice loop yields exactly the kept candidates, in order, each meshed |
| Serialise.WriteObjMesh | gpr2.21.py:86-101 | the writes form the OBJ file: the count comment, one vertex line per vertex, then one 1-based face line per face |
| Serialise.ObjFileLayout | gpr2.21.py:89-101 | the comment states both counts; vertex lines are coloured exactly when colours are given; face lines follow; a face of a well-formed mesh is written with indices in 1..|vertices| |
| Serialise.ObjFaceLines | gpr2.21.py:100-101 | every line after the vertex lines is a face line with 1-based indices of at least 1 |
| Serialise.ObjVerticesRead | gpr2.21.py:92-97 | the vertex lines read back as the vertices |
| Serialise.ObjFacesRead | gpr2.21.py:100-101 | the face lines read back, shifted to 0-based, as the faces |
| Serialise.ObjColoursRead | gpr2.21.py:93-95 | the vertex lines carry back the colours exactly when colours were given and there is a vertex |
| Serialise.ObjRoundTrip | gpr2.21.py:86-101 | reading a written OBJ file gives back its vertices, its faces, and its colours whenever there are vertices |
| Serialise.Byte | gpr2.21.py:81 | `astype(np.uint8)` wraps an integer into 0..255, keeping values already in range |
| Serialise.PlyFileLayout | gpr2.21.py:68-84 | the `element vertex` line states the number of body rows, and every row's colour components are bytes |
| Serialise.PlyRoundTrip | gpr2.21.py:68-84 | reading a written PLY file gives back the points and the colours wrapped to bytes; byte colours come back unchanged |

## Left out

- Serialise.WriteObjMesh: requires at least as many colours as vertices when colours are given. With fewer, `vertex_colors[i]` raises `IndexError` (lines 93-95); every caller passes equal lengths.
- Reading the upload (`pd.read_csv` and the encoding retries, lines 1033-1053): I/O. The column count and the rows that survive `to_numeric`/`dropna` (lines 1065-1073) are inputs of `Pipeline.Process`.
- Reading the upload can fail (lines 1051-1053), and `write_ply_fast`, `create_vr_viewer` or `json.dump` can raise (caught at lines 1251-1256). These are I/O failures, and no `Failure` case models them.
- Pipeline.Process: takes the coerced numeric rows as given. It does not model `iloc` with a negative column index: such an index passes the column check and the source selects a column from the end.
- `quantile`, `pd.qcut`/`pd.cut` and `DataFrame.sample(random_state=42)`: foreign library calls. They are parameters constrained only by size and subset contracts, so the model says nothing about which rows a sample picks or where the bin edges fall.
- `griddata` and `gaussian_filter`: foreign numerics. The interpolated grids are inputs and smoothing is a parameter; only the fallback branches (mean fill, zero grid) are modelled.
- Surface and slice generation inside `process_gpr_data` (lines 1119-1153): `Surfaces` models both generators and the meshes they write, but `Pipeline.Process` does not call them. The source catches every error they raise, so they never change the job's outcome or the layers.
- The per-layer amplitude ranges, `layer_info_html`, `data_bounds`, `amp_min`/`amp_max` and the viewer (`create_vr_viewer`, `generate_layer_loaders`): presentation only.
- `info.json`, the processing timestamp, the Flask routes, the background thread and the `processing_jobs` status map: I/O, a clock and concurrency. A job's status and message are the `Outcome` value.
- Decimal formatting (`%.6f`, `%.4f`, `%d`, `np.savetxt`): the line records hold numbers as values, so the round trips hold on values, not on text.
- Floating point: coordinates, amplitudes and colours are exact reals. Rounding in the mean, the rescale factor and the ramps is not modelled.
- Pipeline.Config: the settings are typed. A form that stores a string where a number is expected, so that the source raises, is not modelled.
- Settings.Lower: folds ASCII letters only, while `str.lower()` also folds other Unicode letters.
- Settings.Coerce: `float()` and `int()` are parameters, so which strings parse, and to what value, is not modelled.
- Stats.Min, Stats.Max: each states only that it bounds every element; that the value is attained is proved for the grid versions (`Grids.GridMinAttained`, `Grids.GridMaxAttained`), not for columns.

## Findings

| source | as written | input that shows it | evidently intended | confidence | as-written member | corrected member |
|---|---|---|---|---|---|---|
| gpr2.21.py:1163-1170 | the layer loop visits levels `range(df_filtered['iso_range'].nunique())`, the number of distinct bin codes | absolute amplitudes [1, 11] with 4 bins: the `pd.qcut` edges 1, 3.5, 6, 8.5, 11 give codes [0, 3]; there are two distinct codes, so level 3 is never visited and one of two rows is never written | visit every bin code, i.e. `range(max code + 1)`, so that every filtered row lands in a layer | not executed | Pipeline.ProcessDropsPoints | Pipeline.CompletedWritesAll |
