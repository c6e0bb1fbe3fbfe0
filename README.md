# crystalyser grain-mapping core, modelled in Dafny

crystalyser reads EBSD (electron backscatter diffraction) maps of a
material. A map is a grid of pixels, and each pixel holds the id of the
grain it belongs to. Two ids are reserved: `100000` for a void pixel and
`100001` for an indexed pixel with no orientation. This project models the
part of the package that works on such grids and on numeric lists:

- **Gridder** (`ebsd_analyser/ebsd/gridder.py`):
  - the reserved ids and the void-filled grid;
  - the in-bounds 4-connected neighbours of a pixel;
  - the outer neighbourhood of a group of pixels.
- **Reader** (`crystalyser/ebsd/reader.py`):
  - `remap_grains` renumbers the grain ids densely as `1..N` in ascending
    order, copies reserved pixels and re-keys the grain map;
  - `get_centroids` collects each id's pixel positions and averages them.
- **Mapper** (`crystalyser/ebsd/mapper.py`):
  - the `Edge` class, whose weight is the running mean of its errors;
  - the edge-building loop of `map_ebsd`;
  - `get_norm_centroids`, which scales centroids by a grid's width and
    height.
- **Helper** (`crystalyser/helper.py`, and the identical `get_sorted` of
  `ebsd_analyser/helper.py`):
  - `get_closest`, the nearest-x lookup;
  - `quick_spline`, linear interpolation on the first bracketing pair;
  - `get_thinned_list`;
  - `get_sorted`, which returns the sorted values and, for each, the first
    unused index holding it.

Python's loops over lists and dictionaries are `method`s with loop
invariants. The `Edge` object is a `class` whose methods update its fields.
Pure computations are functions. Each method is proved against a reference
definition: `Rank` for the new ids, `Xs`/`Ys`/`Centroid` for the centroid
lists, `Dedup` for `list(set(..))`, and `SortedBy` for `sorted`. Lemmas then
prove what the source promises about those definitions.

Python exceptions become `Result` values:

- `IndexError`: an empty grid, a row narrower than the first, a short
  y list, an empty list to thin;
- `KeyError`: a grain id with no grain map entry;
- `ValueError`: list lengths that differ, or `min` of an empty list;
- `ZeroDivisionError`: a zero-width bracket, or a thinning density of 0.

Python's set order is unspecified. `list(set(xs))` is therefore modelled as
`Dedup` (first occurrence kept), and contracts only state what holds for
every order. The code's `get_node_2` returns `node_1`. It is modelled as
written, and `EdgeGettersAgree` states the consequence.

## Model

| member | source | states |
|---|---|---|
| `Gridder.VoidPixelGrid` | ebsd_analyser/ebsd/gridder.py:24-30 | the grid has `y_cells` rows of `x_cells` pixels (none for a negative count, as `range` gives), every pixel `VOID_PIXEL_ID` |
| `Gridder.Neighbours` | ebsd_analyser/ebsd/gridder.py:44-50 | at most four coordinates: exactly the in-bounds pixels that differ from `(x, y)` by one step along one axis |
| `Gridder.NeighboursOrdered` | ebsd_analyser/ebsd/gridder.py:44-50 | the neighbours come in the order left, right, `y-1`, `y+1`, so none is listed twice |
| `Gridder.InteriorPixelNeighbours` | ebsd_analyser/ebsd/gridder.py:44-50 | a pixel off the border has all four neighbours |
| `Gridder.Group` | ebsd_analyser/ebsd/gridder.py:73 | the group lists the pixels `(x_list[i], y_list[i])` in index order |
| `Gridder.AllNeighbours` | ebsd_analyser/ebsd/gridder.py:66-74 | IndexError exactly when `y_list` is shorter than `x_list`; otherwise a duplicate-free list of exactly the in-grid pixels adjacent to some group pixel and not in the group |
| `Gridder.SinglePixelGroup` | ebsd_analyser/ebsd/gridder.py:66-74 | the outer neighbourhood of a one-pixel group is exactly that pixel's neighbour list |
| `Seqs.Dedup` | ebsd_analyser/ebsd/gridder.py:72 | `list(set(xs))` is never longer than its input |
| `Seqs.DedupSpec` | ebsd_analyser/ebsd/gridder.py:72 | `list(set(xs))` has no duplicates and holds exactly the elements of `xs` |
| `Seqs.DedupOfDistinct` | crystalyser/ebsd/mapper.py:70-71 | a listing that already has no duplicates is unchanged by deduplication |
| `Seqs.DedupSnoc` | crystalyser/ebsd/mapper.py:75-81 | extending the input by one element extends the deduplicated listing by it exactly when it is new |
| `Seqs.DistinctCard` | crystalyser/ebsd/reader.py:110 | a duplicate-free listing has as many entries as distinct elements |
| `Seqs.Without` | ebsd_analyser/ebsd/gridder.py:74 | the filter keeps exactly the elements not in the group, adds no duplicates and never grows |
| `Reader.Flatten` | crystalyser/ebsd/reader.py:109 | the flattened grid holds exactly the labels found at some pixel |
| `Gridder.ReservedIds` | ebsd_analyser/ebsd/gridder.py:9-10 | the reserved labels are exactly `100000` and `100001`, so no id below `100000` is reserved |
| `Reader.LabelPresent` | crystalyser/ebsd/reader.py:109-110 | a label is present in the grid exactly when some pixel holds it |
| `Reader.GrainLabelPresent` | crystalyser/ebsd/reader.py:109-113 | the old ids are the present labels other than `VOID_PIXEL_ID` and `UNORIENTED_PIXEL_ID` |
| `Reader.PixelInLabels` | crystalyser/ebsd/reader.py:109-113 | every pixel's label is a label of the grid, and a grain label when not reserved |
| `Reader.SortedIds` | crystalyser/ebsd/reader.py:114 | the sorted old ids are strictly ascending and are exactly the grain labels |
| `Reader.AscendingListing` | crystalyser/ebsd/reader.py:114 | every finite set of ids has a strictly ascending listing |
| `Reader.HasMinimum` | crystalyser/ebsd/reader.py:114 | a non-empty set of ids has a least element (the next one `sort` places) |
| `Reader.DistinctAscending` | crystalyser/ebsd/reader.py:114 | a strictly ascending listing has no duplicates |
| `Reader.ListingCard` | crystalyser/ebsd/reader.py:110-119 | the sorted listing has one entry per grain label, so `N` is the number of grain labels |
| `Reader.NewIds` | crystalyser/ebsd/reader.py:117-119 | `id_map` has exactly the grain labels as keys, maps the `i`-th sorted id to `i + 1`, and so maps each label to its rank |
| `Reader.RankOfSorted` | crystalyser/ebsd/reader.py:114-119 | the `j`-th sorted id has rank `j + 1`: the loop's `i + 1` is the rank |
| `Reader.RankBounds` | crystalyser/ebsd/reader.py:118-119 | every new id lies in `1..N` |
| `Reader.RankStrictlyIncreasing` | crystalyser/ebsd/reader.py:114-119 | renumbering keeps the order of grain labels strictly |
| `Reader.RankOnto` | crystalyser/ebsd/reader.py:118-119 | every id in `1..N` is the new id of some grain label |
| `Reader.Interval` | crystalyser/ebsd/reader.py:118-119 | the new ids in loop order are `1, 2, ..., N` |
| `Reader.IdRange` | crystalyser/ebsd/reader.py:132-135 | the key set of the new grain map holds exactly `1..N`, and `N` keys |
| `Reader.RemappedGrid` | crystalyser/ebsd/reader.py:121-129 | the new grid has the input's row count and first-row width; reserved pixels are copied and grain pixels get ids in `1..N` |
| `Reader.Relabel` | crystalyser/ebsd/reader.py:125-129 | a reserved pixel is copied; a grain label gets a new id in `1..N` |
| `Reader.RelabelledRow` | crystalyser/ebsd/reader.py:124-129 | a new row has the first row's width, each pixel copied if reserved and renumbered otherwise |
| `Reader.RemappedInRange` | crystalyser/ebsd/reader.py:125-129 | every renumbered grain pixel holds an id in `1..N` |
| `Reader.RemappedPixel` | crystalyser/ebsd/reader.py:127-129 | a grain pixel of the new grid holds the rank of its old label |
| `Reader.RelabelPixels` | crystalyser/ebsd/reader.py:121-129 | IndexError exactly when some row is narrower than the first; otherwise the grid equals `RemappedGrid` |
| `Reader.FirstMissingIsLeast` | crystalyser/ebsd/reader.py:133-135 | the first sorted id missing from the grain map is the least missing one: the key of the KeyError |
| `Reader.RekeyGrainMap` | crystalyser/ebsd/reader.py:131-135 | KeyError at the least grain label with no entry exactly when one is missing; otherwise keys `1..N`, and the entry at each label's rank is that label's grain |
| `Reader.RemapGrains` | crystalyser/ebsd/reader.py:97-138 | IndexError for an empty grid or a narrow row; KeyError at the least unmapped grain label; otherwise the renumbered grid and a grain map with keys `1..N`, each grain moved to its label's rank |
| `Reader.RemapPreservesOrder` | crystalyser/ebsd/reader.py:114-129 | two grain pixels' new ids compare as their old labels do, both for `<` and for `==` |
| `Reader.RemapPreservesEquality` | crystalyser/ebsd/reader.py:121-129 | with fewer than 100000 grains, two pixels share a new label exactly when they shared the old one, reserved pixels included |
| `Reader.RemapDenseIsIdentity` | crystalyser/ebsd/reader.py:97-138 | a rectangular grid whose grain labels are already `1..n` is left unchanged |
| `Reader.RemappedLabelsWithin` | crystalyser/ebsd/reader.py:117-129 | every grain label of the new grid lies in `1..N` |
| `Reader.RemappedLabelsOnto` | crystalyser/ebsd/reader.py:117-129 | with fewer than 100000 grains, every id in `1..N` occurs in the new grid |
| `Reader.RemapIdempotent` | crystalyser/ebsd/reader.py:97-138 | with fewer than 100000 grains on a rectangular grid, renumbering a renumbered grid changes nothing |
| `Reader.RowLists` | crystalyser/ebsd/reader.py:159-161 | a row's column list for a label holds exactly the columns carrying it, paired with that row index |
| `Reader.GridListsSound` | crystalyser/ebsd/reader.py:158-161 | every recorded `(x, y)` of a label is a pixel of the first rows holding that label |
| `Reader.GridListsComplete` | crystalyser/ebsd/reader.py:158-161 | every pixel of the first rows holding a label is recorded as an `(x, y)` pair |
| `Reader.ColumnsAscending` | crystalyser/ebsd/reader.py:159-161 | a row's columns for a label are strictly ascending and within the scanned width |
| `Reader.AppendRowOrdered` | crystalyser/ebsd/reader.py:158-161 | appending a later row's pixels, in ascending columns, keeps the lists in strict scan order |
| `Reader.GridListsOrdered` | crystalyser/ebsd/reader.py:158-161 | the pairs recorded for a label over the first rows are in strict row-then-column order |
| `Reader.GridLists` | crystalyser/ebsd/reader.py:158-161 | the `x` and `y` lists of a label have equal length, list exactly that label's pixels of the first rows, and are in strict scan order, so no pixel is listed twice |
| `Reader.PixelLists` | crystalyser/ebsd/reader.py:158-161 | the same over the whole grid: `pixel_dict` holds exactly each label's pixels, each once, in scan order |
| `Reader.LabelHasPixels` | crystalyser/ebsd/reader.py:151-161 | a label occurs in the grid exactly when its pixel list is non-empty, so `np.average` never sees an empty list |
| `Reader.EmptyLists` | crystalyser/ebsd/reader.py:153-155 | one empty `x`/`y` pair per label of the grid |
| `Reader.AppendPixel` | crystalyser/ebsd/reader.py:160-161 | appending pixel `x` of a row extends the lists of the pixel's label by `x` and `y` and leaves the others unchanged |
| `Reader.AppendRow` | crystalyser/ebsd/reader.py:159-161 | after a row, each label's lists are extended by exactly that row's columns holding it, paired with the row index |
| `Reader.RowStep` | crystalyser/ebsd/reader.py:158-161 | appending a row to the lists of the rows above gives the lists up to and including that row |
| `Reader.CollectPixels` | crystalyser/ebsd/reader.py:151-161 | `pixel_dict` has one entry per label, holding exactly that label's pixel columns and rows in scan order |
| `Reader.Mean` | crystalyser/ebsd/reader.py:166-167 | `np.average` of a non-empty list, times its length, is the list's sum |
| `Reader.CentroidIsMean` | crystalyser/ebsd/reader.py:164-168 | a present label has pixels, and each centroid coordinate times the pixel count is the sum of that coordinate over the label's pixels |
| `Reader.SumBounds` | crystalyser/ebsd/reader.py:166-167 | a sum of `n` values in `[lo, hi]` lies in `[n*lo, n*hi]` |
| `Reader.MeanBounds` | crystalyser/ebsd/reader.py:166-167 | the mean of values in `[lo, hi]` lies in `[lo, hi]` |
| `Reader.GetCentroids` | crystalyser/ebsd/reader.py:140-169 | one centroid per label of the grid (reserved ids included), each the mean column and mean row of that label's pixels |
| `Reader.SinglePixelCentroid` | crystalyser/ebsd/reader.py:140-169 | a label held by one pixel has that pixel's coordinates as its centroid |
| `Reader.CentroidInBounds` | crystalyser/ebsd/reader.py:140-169 | in a rectangular grid every centroid lies within the grid's column and row range |
| `Mapper.Average` | crystalyser/ebsd/mapper.py:49 | the weight, times the number of errors, is the errors' sum |
| `Mapper.SumOfBounds` | crystalyser/ebsd/mapper.py:49 | a sum of `n` errors in `[lo, hi]` lies in `[n*lo, n*hi]` |
| `Mapper.AverageBounds` | crystalyser/ebsd/mapper.py:49 | an edge weight lies between the least and the greatest error |
| `Mapper.AverageAppend` | crystalyser/ebsd/mapper.py:48-49 | adding an error updates the mean incrementally: old mean weighted by the old count, plus the error, over the new count |
| `Mapper.Edge.constructor` | crystalyser/ebsd/mapper.py:16-27 | a new edge joins the two given nodes, has no errors and no weight |
| `Mapper.Edge.GetNode1` | crystalyser/ebsd/mapper.py:29-33 | returns the first node |
| `Mapper.Edge.GetNode2` | crystalyser/ebsd/mapper.py:35-39 | returns the first node as well, as the code is written |
| `Mapper.EdgeGettersAgree` | crystalyser/ebsd/mapper.py:35-39 | both node getters of any edge return the same value |
| `Mapper.Edge.GetWeight` | crystalyser/ebsd/mapper.py:51-55 | the weight is absent exactly when no error was added, and otherwise is the mean of all errors |
| `Mapper.Edge.AddError` | crystalyser/ebsd/mapper.py:41-49 | the error is appended, the weight becomes the mean of all errors, and the nodes are unchanged |
| `Mapper.ConnectedIds` | crystalyser/ebsd/mapper.py:70-81 | the connected list has no duplicates and holds exactly the second-map ids, or nothing when the first map has no ids |
| `Mapper.ConnectedAll` | crystalyser/ebsd/mapper.py:70-81 | with a first-map id, a duplicate-free second listing is connected in its own order |
| `Mapper.ScanFirst` | crystalyser/ebsd/mapper.py:75-81 | scanning one more second-map id appends it to the connected list exactly when it is not yet there |
| `Mapper.DedupKeeps` | crystalyser/ebsd/mapper.py:75-77 | on later passes every second-map id is already connected, so each is skipped |
| `Mapper.NewEdgesAppend` | crystalyser/ebsd/mapper.py:78-81 | appending a new unweighted edge and its target keeps the edge list matched to the connected list |
| `Mapper.ConnectPass` | crystalyser/ebsd/mapper.py:75-81 | one inner pass: afterwards every second-map id is connected; only the first pass adds edges, each from the current first-map id to the next connected id, all new and distinct |
| `Mapper.BuildEdges` | crystalyser/ebsd/mapper.py:70-81 | one edge per connected id, all from the first first-map id, the `k`-th to the `k`-th connected id, newly allocated, distinct and unweighted |
| `Mapper.NormCentroid` | crystalyser/ebsd/mapper.py:133 | the normalised centroid times the width and height gives back the raw centroid |
| `Mapper.NormalizeCentroids` | crystalyser/ebsd/mapper.py:130-133 | one entry per label, each the centroid divided by the first row's length and the row count |
| `Mapper.ScalingStep` | crystalyser/ebsd/mapper.py:131-133 | scaling one pending centroid moves it from the raw to the normalised side of the loop state |
| `Mapper.GetNormCentroids` | crystalyser/ebsd/mapper.py:112-140 | IndexError exactly when either grid is empty; otherwise both maps of normalised centroids |
| `Mapper.NormCentroidInUnitSquare` | crystalyser/ebsd/mapper.py:123-137 | in a rectangular grid every normalised centroid lies in `[0, 1) x [0, 1)` |
| `Mapper.DivideAtMost` | crystalyser/ebsd/mapper.py:133 | a coordinate at most `w - 1`, divided by `w`, is below 1 |
| `Reader.ExampleRow` | crystalyser/ebsd/reader.py:158-161 | a row `[a, a]` records columns `0, 1` under `a` and nothing under another label |
| `Reader.ExamplePixelLists` | crystalyser/ebsd/reader.py:158-161 | on `[[1, 1], [2, 2]]`, label 1 has pixels `(0,0), (1,0)` and label 2 has `(0,1), (1,1)` |
| `Reader.ExampleMeans` | crystalyser/ebsd/reader.py:166-167 | the means of `[0, 1]`, `[0, 0]` and `[1, 1]` are `0.5`, `0` and `1` |
| `Reader.CentroidExample` | crystalyser/ebsd/reader.py:140-169 | on `[[1, 1], [2, 2]]` the centroids are `(0.5, 0)` and `(0.5, 1)` |
| `Mapper.ScaledCentroid` | crystalyser/ebsd/mapper.py:133 | a pair that scales back to the raw centroid is the normalised centroid |
| `Mapper.NormCentroidExample` | crystalyser/ebsd/mapper.py:112-140 | on `[[1, 1], [2, 2]]` the normalised centroids are `(0.25, 0)` and `(0.25, 0.5)` |
| `Helper.Diffs` | crystalyser/helper.py:24 | one absolute difference to `x_value` per x value, in order |
| `Helper.Min` | crystalyser/helper.py:25 | the minimum is an element and no element is smaller |
| `Helper.IndexOf` | crystalyser/helper.py:26 | `list.index` gives the first position holding the value |
| `Helper.ClosestIndex` | crystalyser/helper.py:24-26 | the `min`-then-`index` lookup picks an index nearest to `x_value`, and every earlier index is strictly farther |
| `Helper.FirstClosestUnique` | crystalyser/helper.py:24-26 | only one index is first-nearest, so the result does not depend on how it is found |
| `Helper.GetClosest` | crystalyser/helper.py:12-27 | ValueError exactly for an empty x list; otherwise IndexError exactly when the y list has no entry at the first nearest x, and the y value there when it has |
| `Helper.SplineFrom` | crystalyser/helper.py:44-49 | from pair `i` on: nothing when no later pair brackets `x_value`; ZeroDivisionError when the first bracketing pair has equal x; otherwise the line through the first bracketing pair |
| `Helper.QuickSpline` | crystalyser/helper.py:29-49 | ValueError exactly when lengths differ; `None` exactly when no pair brackets `x_value`; ZeroDivisionError exactly when the first bracketing pair has equal x; otherwise interpolation on the first bracketing pair |
| `Helper.FirstBracketUnique` | crystalyser/helper.py:44-45 | there is at most one first bracketing pair |
| `Helper.SplineOnFirstBracket` | crystalyser/helper.py:44-48 | with a first bracketing pair of distinct x, the result is the interpolation on that pair |
| `Helper.Interpolate` | crystalyser/helper.py:46-47 | the line through a pair passes through both of its points |
| `Helper.InterpolateBetween` | crystalyser/helper.py:46-47 | the line evaluated within a pair lies between the pair's y values |
| `Helper.LineBetween` | crystalyser/helper.py:46-47 | a line through two points, evaluated between their x values, lies between their y values |
| `Helper.SplineBetween` | crystalyser/helper.py:44-48 | on strictly ascending x values, a bracketed `x_value` gets a result between the bracketing y values |
| `Helper.KnotBracket` | crystalyser/helper.py:44-45 | on strictly ascending x values, a knot's first bracketing pair is the one ending at it (or the first pair for the first knot) |
| `Helper.SplineAtKnot` | crystalyser/helper.py:44-48 | on strictly ascending x values with at least two knots, evaluating at a knot returns that knot's y value |
| `Helper.ThinIndexes` | crystalyser/helper.py:61-64 | `max(density, 2)` indexes: first `0`, last `n - 1`, the middle ones `floor(n / density * i)` |
| `Helper.FloorBelow` | crystalyser/helper.py:63 | a middle index `floor(n * i / density)` lies in `0..n-1` |
| `Helper.FloorMonotone` | crystalyser/helper.py:63 | consecutive middle indexes never decrease |
| `Helper.ThinIndexesInRange` | crystalyser/helper.py:61-65 | for a non-empty list every index is valid and the indexes never decrease |
| `Helper.GetThinnedList` | crystalyser/helper.py:51-66 | ZeroDivisionError exactly when the density is 0; IndexError exactly for an empty list; otherwise `max(density, 2)` elements, the `k`-th being the list's element at the `k`-th thinning index, so it starts with the first element and ends with the last |
| `Helper.Insert` | crystalyser/helper.py:192 | inserting into an ordered list keeps it ordered and adds exactly the one value |
| `Helper.SortedBy` | crystalyser/helper.py:192 | `sorted(values, reverse)` is ordered in the requested direction and a permutation of the values |
| `Helper.OrderedPermutationUnique` | ebsd_analyser/helper.py:125 | two ordered permutations of the same values are equal, so `SortedBy` is the only possible result of `sorted` |
| `Helper.UnusedExtend` | crystalyser/helper.py:194-198 | using one index holding the next sorted value leaves exactly the remaining sorted values unused |
| `Helper.MatchedExtend` | crystalyser/helper.py:194-198 | pairing the next sorted value with the first free index holding it keeps every pairing duplicate-free and first-free |
| `Helper.FindUnused` | crystalyser/helper.py:195-198 | the inner loop finds the first index holding the value that is not yet used |
| `Helper.MatchedAll` | crystalyser/helper.py:192-199 | once every sorted value is paired, every index of the input has been used |
| `Helper.GetSorted` | crystalyser/helper.py:183-199 | an ordered permutation of the values with one distinct index per value, each index holding its value, every index used, and each value at the first index not used before |
| `Helper.TiesAscending` | ebsd_analyser/helper.py:127-131 | equal values get their indexes in ascending order, so ties keep their input order |

## Left out

- File reading is not modelled: `read_pixels`, `get_info` and the CSV parsing of `reader.py`.
- The `Grain` objects of the grain map are not modelled; `RemapGrains` is generic in the value type.
- The weighting loop of `map_ebsd` (`mapper.py:84-104`) is not modelled, because it uses a floating-point `math.sqrt` distance.
- The networkx minimum spanning tree and its `print` (`mapper.py:107-110`) are not modelled. That is a foreign library and I/O, and `map_ebsd` returns nothing.
- The plotter, the CSV/Excel helpers, `round_sf`, `remove_nan` and the scripts are not part of this model.
- Floating point is modelled as exact reals: `abs`, `/`, `np.average` and `math.floor` are exact, and NaN and rounding are not modelled.
- `get_neighbours` declares its coordinates as floats; the model uses integer pixel coordinates, which is how callers use it.
- Python's set iteration order is unspecified. `list(set(..))` is `Dedup` (first occurrence first). `BuildEdges` takes both id listings as parameters, and contracts state only order-independent facts.
- NormalizeCentroids (`Mapper.NormalizeCentroids`, and `GetNormCentroids` through it): requires that a grid with pixels has a non-empty first row. The Python code divides by zero there, and numpy gives `inf`; that branch is not modelled.
- RemapPreservesEquality, RemappedLabelsOnto and RemapIdempotent (`Reader.*`): these hold only with fewer than 100000 grain labels. With more, a new id can equal a reserved label, and Python then mixes them up.
- GetThinnedList (`Helper.GetThinnedList`): the middle indexes are computed exactly as `floor(n * i / density)`. The Python float product `n / density * i` can fall just below a whole number even for short lists, and `math.floor` then takes the index before. For 30 elements and density 22, `30 / 22 * 11` is `14.999999999999998`, so Python picks index 14 where the model picks 15; for 2 elements and density 98, `2 / 98 * 49` gives index 0 where the model gives 1.
