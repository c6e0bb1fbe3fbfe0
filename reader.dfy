/** Grain relabelling and centroids of crystalyser/ebsd/reader.py. The
    reserved labels come from the gridder module. */
module Reader {
  import opened Wrappers
  import opened Seqs
  import opened Gridder

  // ---------------------------------------------------------------------
  // Labels of a grid
  // ---------------------------------------------------------------------

  /** The grid's pixels row after row (`flattened`). */
  function Flatten(grid: Grid): (f: seq<int>)
    ensures forall v :: v in f <==>
      exists y, x :: 0 <= y < |grid| && 0 <= x < |grid[y]| && grid[y][x] == v
  {
    if |grid| == 0 then []
    else
      var init := grid[..|grid| - 1];
      var f := Flatten(init) + grid[|grid| - 1];
      assert forall y, x :: 0 <= y < |init| && 0 <= x < |init[y]| ==> init[y][x] == grid[y][x];
      var last := grid[|grid| - 1];
      assert forall x :: 0 <= x < |last| ==> last[x] in f;
      f
  }

  /** Every label present in the grid, reserved labels included. */
  function Labels(grid: Grid): set<int> {
    set v | v in Flatten(grid)
  }

  /** A label is present exactly when some pixel holds it. */
  lemma LabelPresent(grid: Grid, v: int)
    ensures v in Labels(grid) <==>
      exists y, x :: 0 <= y < |grid| && 0 <= x < |grid[y]| && grid[y][x] == v
  {
  }

  /** The grain labels of the grid: present and not reserved. */
  function GrainLabels(grid: Grid): set<int> {
    Labels(grid) - {VOID_PIXEL_ID, UNORIENTED_PIXEL_ID}
  }

  /** A grain label is a present label other than the void label `100000`
      and the unoriented label `100001`. */
  lemma GrainLabelPresent(grid: Grid, v: int)
    ensures v in GrainLabels(grid) <==>
      v in Labels(grid) && v != VOID_PIXEL_ID && v != UNORIENTED_PIXEL_ID
    ensures v in GrainLabels(grid) <==> v in Labels(grid) && !IsReserved(v)
  {
  }

  lemma PixelInLabels(grid: Grid, y: int, x: int)
    requires 0 <= y < |grid| && 0 <= x < |grid[y]|
    ensures grid[y][x] in Labels(grid)
    ensures !IsReserved(grid[y][x]) ==> grid[y][x] in GrainLabels(grid)
  {
    assert grid[y][x] in Flatten(grid);
  }

  /** Every row has the same length as the first. */
  predicate IsRectangular(grid: Grid) {
    forall y :: 0 <= y < |grid| ==> |grid[y]| == |grid[0]|
  }

  // ---------------------------------------------------------------------
  // Relabelling
  // ---------------------------------------------------------------------

  predicate StrictlyIncreasing(s: seq<int>) {
    forall i, j :: 0 <= i < j < |s| ==> s[i] < s[j]
  }

  /** The new id of grain label `v`: its 1-based position among `ids` in
      ascending order, counted directly as the number of ids up to `v`. */
  function Rank(ids: set<int>, v: int): nat {
    |set u | u in ids && u <= v|
  }

  /** What a pixel holding `v` becomes: reserved labels are copied, grain
      labels renumbered. */
  function Relabel(ids: set<int>, v: int): (r: int)
    ensures IsReserved(v) ==> r == v
    ensures !IsReserved(v) && v in ids ==> 1 <= r <= |ids|
  {
    if IsReserved(v) then v
    else
      if v in ids then RankBounds(ids, v); Rank(ids, v) else Rank(ids, v)
  }

  /** Every row reaches the width of the first row, so that the copy loop
      over `range(len(pixel_grid[0]))` finds a pixel in each row. */
  predicate RowsCoverWidth(grid: Grid)
    requires |grid| > 0
  {
    forall y :: 0 <= y < |grid| ==> |grid[y]| >= |grid[0]|
  }

  /** The renumbered grid: as many rows as the input, each as wide as the
      input's first row; reserved pixels are copied and every other pixel
      gets an id in `1..N`, N being the number of grain labels. */
  function RemappedGrid(grid: Grid): (g: Grid)
    requires |grid| > 0 && RowsCoverWidth(grid)
    ensures |g| == |grid|
    ensures forall y :: 0 <= y < |g| ==> |g[y]| == |grid[0]|
    ensures forall y, x :: 0 <= y < |g| && 0 <= x < |g[y]| && IsReserved(grid[y][x]) ==>
      g[y][x] == grid[y][x]
    ensures forall y, x :: 0 <= y < |g| && 0 <= x < |g[y]| && !IsReserved(grid[y][x]) ==>
      1 <= g[y][x] <= |GrainLabels(grid)|
  {
    var ids := GrainLabels(grid);
    var g := seq(|grid|, y requires 0 <= y < |grid| => RelabelledRow(ids, grid[y], |grid[0]|));
    RemappedInRange(grid, ids, g);
    g
  }

  /** The first `width` pixels of a row, relabelled. */
  function RelabelledRow(ids: set<int>, row: seq<int>, width: nat): (r: seq<int>)
    requires width <= |row|
    ensures |r| == width
    ensures forall x :: 0 <= x < width ==> r[x] == Relabel(ids, row[x])
  {
    seq(width, x requires 0 <= x < width => Relabel(ids, row[x]))
  }

  lemma RemappedInRange(grid: Grid, ids: set<int>, g: Grid)
    requires ids == GrainLabels(grid) && |g| == |grid|
    requires forall y :: 0 <= y < |g| ==> |g[y]| <= |grid[y]|
    requires forall y, x :: 0 <= y < |g| && 0 <= x < |g[y]| ==> g[y][x] == Relabel(ids, grid[y][x])
    ensures forall y, x :: 0 <= y < |g| && 0 <= x < |g[y]| && !IsReserved(grid[y][x]) ==>
      1 <= g[y][x] <= |ids|
  {
    forall y, x | 0 <= y < |g| && 0 <= x < |g[y]| && !IsReserved(grid[y][x])
      ensures 1 <= g[y][x] <= |ids|
    {
      PixelInLabels(grid, y, x);
      RankBounds(ids, grid[y][x]);
    }
  }

  /** Python's `sort` of the old ids: their ascending listing. */
  method SortedIds(ids: set<int>) returns (s: seq<int>)
    ensures StrictlyIncreasing(s)
    ensures forall v :: v in s <==> v in ids
  {
    s := [];
    var rest := ids;
    while rest != {}
      invariant forall v :: v in ids <==> v in s || v in rest
      invariant StrictlyIncreasing(s)
      invariant forall i, u :: 0 <= i < |s| && u in rest ==> s[i] < u
      decreases |rest|
    {
      HasMinimum(rest);
      var m :| m in rest && forall u :: u in rest ==> m <= u;
      s := s + [m];
      rest := rest - {m};
    }
  }

  /** `m` is the least grain label of the grid missing from the grain map:
      the key at which the renumbering loop raises KeyError. */
  predicate IsLeastMissing(m: int, ids: set<int>, keys: set<int>) {
    m in ids && m !in keys && forall u :: u in ids && u !in keys ==> m <= u
  }

  /** `remap_grains`: renumbers the grain labels densely as `1..N` in
      ascending order, copying reserved pixels, and re-keys the grain map.
      An empty grid, or a row narrower than the first, raises IndexError; a
      grain label without a grain map entry raises KeyError at the least
      such label. */
  method RemapGrains<G>(grid: Grid, grainMap: map<int, G>) returns (r: Result<(Grid, map<int, G>)>)
    ensures r.Err? <==> |grid| == 0 || !RowsCoverWidth(grid) || !(GrainLabels(grid) <= grainMap.Keys)
    ensures r.Err? && (|grid| == 0 || !RowsCoverWidth(grid)) ==> r.error == IndexError
    ensures r.Err? && |grid| > 0 && RowsCoverWidth(grid) ==>
      r.error.KeyError? && IsLeastMissing(r.error.key, GrainLabels(grid), grainMap.Keys)
    ensures r.Ok? ==> r.value.0 == RemappedGrid(grid)
    ensures r.Ok? ==> r.value.1.Keys == IdRange(|GrainLabels(grid)|)
    ensures r.Ok? ==> |r.value.1| == |GrainLabels(grid)|
    ensures r.Ok? ==> forall v :: v in GrainLabels(grid) ==>
      Rank(GrainLabels(grid), v) in r.value.1 && r.value.1[Rank(GrainLabels(grid), v)] == grainMap[v]
  {
    // Old ids: the distinct labels less the reserved ones, ascending
    var idSet := GrainLabels(grid);
    var oldIds := SortedIds(idSet);
    var idMap := NewIds(oldIds, idSet);

    if |grid| == 0 {
      return Err(IndexError);
    }
    var pixels := RelabelPixels(grid, idMap, idSet);
    if pixels.Err? {
      return Err(pixels.error);
    }
    var grains := RekeyGrainMap(oldIds, idMap, idSet, grainMap);
    if grains.Err? {
      return Err(grains.error);
    }
    r := Ok((pixels.value, grains.value));
  }

  /** The `id_map` loop of `remap_grains`: the `i`-th smallest old id
      (from 0) is mapped to `i + 1`, which is its rank. */
  method NewIds(oldIds: seq<int>, ghost ids: set<int>) returns (idMap: map<int, int>)
    requires StrictlyIncreasing(oldIds)
    requires forall v :: v in oldIds <==> v in ids
    ensures idMap.Keys == ids
    ensures forall j :: 0 <= j < |oldIds| ==> oldIds[j] in idMap && idMap[oldIds[j]] == j + 1
    ensures forall v :: v in ids ==> idMap[v] == Rank(ids, v)
  {
    idMap := map[];
    for i := 0 to |oldIds|
      invariant forall v :: v in idMap <==> v in oldIds[..i]
      invariant forall j :: 0 <= j < i ==> oldIds[j] in idMap && idMap[oldIds[j]] == j + 1
    {
      idMap := idMap[oldIds[i] := i + 1];
    }
    assert oldIds[..|oldIds|] == oldIds;
    assert forall v :: v in idMap <==> v in ids;
    assert forall j :: 0 <= j < |oldIds| ==> oldIds[j] in idMap;
    forall v | v in ids ensures idMap[v] == Rank(ids, v) {
      var j :| 0 <= j < |oldIds| && oldIds[j] == v;
      RankOfSorted(oldIds, ids, j);
    }
  }

  /** The pixel copy loop of `remap_grains`: a void grid as wide as the
      first row is filled pixel by pixel, reserved labels copied and grain
      labels looked up in `idMap`. A row narrower than the first raises
      IndexError. */
  method RelabelPixels(grid: Grid, idMap: map<int, int>, ghost ids: set<int>) returns (r: Result<Grid>)
    requires |grid| > 0
    requires ids == GrainLabels(grid)
    requires forall v :: v in ids ==> v in idMap && idMap[v] == Rank(ids, v)
    ensures r.Err? <==> !RowsCoverWidth(grid)
    ensures r.Err? ==> r.error == IndexError
    ensures r.Ok? ==> RowsCoverWidth(grid) && r.value == RemappedGrid(grid)
  {
    var width, height := |grid[0]|, |grid|;
    var newGrid := VoidPixelGrid(width, height);
    for y := 0 to height
      invariant |newGrid| == height
      invariant forall y' :: 0 <= y' < height ==> |newGrid[y']| == width
      invariant forall y' :: 0 <= y' < y ==> |grid[y']| >= width
      invariant forall y', x' :: 0 <= y' < y && 0 <= x' < width ==>
        newGrid[y'][x'] == Relabel(ids, grid[y'][x'])
    {
      for x := 0 to width
        invariant |newGrid| == height
        invariant forall y' :: 0 <= y' < height ==> |newGrid[y']| == width
        invariant x <= |grid[y]|
        invariant forall y', x' :: 0 <= y' < y && 0 <= x' < width ==>
          newGrid[y'][x'] == Relabel(ids, grid[y'][x'])
        invariant forall x' :: 0 <= x' < x ==> newGrid[y][x'] == Relabel(ids, grid[y][x'])
      {
        if x >= |grid[y]| {
          return Err(IndexError);
        }
        var pixel := grid[y][x];
        if IsReserved(pixel) {
          newGrid := newGrid[y := newGrid[y][x := pixel]];
        } else {
          PixelInLabels(grid, y, x);
          newGrid := newGrid[y := newGrid[y][x := idMap[pixel]]];
        }
      }
    }
    assert RowsCoverWidth(grid);
    var g := RemappedGrid(grid);
    forall y | 0 <= y < height ensures newGrid[y] == g[y] {
      assert forall x :: 0 <= x < width ==> newGrid[y][x] == g[y][x];
    }
    r := Ok(newGrid);
  }

  /** The grain map loop of `remap_grains`: each old id, in ascending
      order, re-keys its grain under its new id; the first old id missing
      from the grain map raises KeyError. */
  method RekeyGrainMap<G>(oldIds: seq<int>, idMap: map<int, int>, ghost ids: set<int>, grainMap: map<int, G>)
    returns (r: Result<map<int, G>>)
    requires StrictlyIncreasing(oldIds)
    requires forall v :: v in oldIds <==> v in ids
    requires forall j :: 0 <= j < |oldIds| ==> oldIds[j] in idMap && idMap[oldIds[j]] == j + 1
    ensures r.Err? <==> !(ids <= grainMap.Keys)
    ensures r.Err? ==> r.error.KeyError? && IsLeastMissing(r.error.key, ids, grainMap.Keys)
    ensures r.Ok? ==> r.value.Keys == IdRange(|ids|)
    ensures r.Ok? ==> |r.value| == |ids|
    ensures r.Ok? ==> forall v :: v in ids ==> Rank(ids, v) in r.value && r.value[Rank(ids, v)] == grainMap[v]
  {
    var newMap: map<int, G> := map[];
    for i := 0 to |oldIds|
      invariant forall j :: 0 <= j < i ==> oldIds[j] in grainMap
      invariant forall k :: k in newMap <==> 1 <= k <= i
      invariant forall j :: 0 <= j < i ==> newMap[j + 1] == grainMap[oldIds[j]]
    {
      if oldIds[i] !in grainMap {
        FirstMissingIsLeast(oldIds, ids, grainMap.Keys, i);
        return Err(KeyError(oldIds[i]));
      }
      newMap := newMap[idMap[oldIds[i]] := grainMap[oldIds[i]]];
    }
    ListingCard(oldIds, ids);
    assert newMap.Keys == IdRange(|ids|);
    forall v | v in ids ensures v in grainMap && Rank(ids, v) in newMap && newMap[Rank(ids, v)] == grainMap[v] {
      var j :| 0 <= j < |oldIds| && oldIds[j] == v;
      RankOfSorted(oldIds, ids, j);
    }
    r := Ok(newMap);
  }

  // ---------------------------------------------------------------------
  // Properties of the renumbering
  // ---------------------------------------------------------------------

  lemma {:induction false} HasMinimum(ids: set<int>)
    requires ids != {}
    ensures exists m :: m in ids && forall u :: u in ids ==> m <= u
    decreases |ids|
  {
    assert exists x :: x in ids by {
      if forall x :: x !in ids {
        assert false;
      }
    }
    var x :| x in ids;
    var rest := ids - {x};
    if rest == {} {
      forall u | u in ids ensures x <= u {
        assert u !in rest;
      }
    } else {
      HasMinimum(rest);
      var m :| m in rest && forall u :: u in rest ==> m <= u;
      var least := if x < m then x else m;
      forall u | u in ids ensures least <= u {
        if u != x {
          assert u in rest;
        }
      }
      assert least in ids;
    }
  }

  /** The first old id missing from the grain map, in ascending order, is
      the least missing grain label. */
  lemma FirstMissingIsLeast(s: seq<int>, ids: set<int>, keys: set<int>, i: int)
    requires StrictlyIncreasing(s)
    requires forall v :: v in s <==> v in ids
    requires 0 <= i < |s| && s[i] !in keys
    requires forall j :: 0 <= j < i ==> s[j] in keys
    ensures IsLeastMissing(s[i], ids, keys)
  {
    forall u | u in ids && u !in keys ensures s[i] <= u {
      var j :| 0 <= j < |s| && s[j] == u;
    }
  }

  /** An ascending listing of a set is as long as the set is large. */
  lemma ListingCard(s: seq<int>, ids: set<int>)
    requires StrictlyIncreasing(s)
    requires forall v :: v in s <==> v in ids
    ensures |s| == |ids|
  {
    DistinctAscending(s);
    DistinctCard(s);
    assert (set v | v in s) == ids;
  }

  lemma DistinctAscending(s: seq<int>)
    requires StrictlyIncreasing(s)
    ensures Distinct(s)
  {
  }

  /** The ids `1..n`, ascending. */
  function Interval(n: nat): (s: seq<int>)
    ensures |s| == n
    ensures forall i :: 0 <= i < n ==> s[i] == i + 1
  {
    seq(n, i => i + 1)
  }

  /** The new ids `1..n`, as a set. */
  function IdRange(n: nat): (r: set<int>)
    ensures forall k :: k in r <==> 1 <= k <= n
    ensures |r| == n
  {
    if n == 0 then {} else IdRange(n - 1) + {n}
  }

  /** The new id of the `j`-th smallest grain label is `j + 1`. */
  lemma RankOfSorted(s: seq<int>, ids: set<int>, j: int)
    requires StrictlyIncreasing(s)
    requires forall v :: v in s <==> v in ids
    requires 0 <= j < |s|
    ensures Rank(ids, s[j]) == j + 1
  {
    var prefix := s[..j + 1];
    assert (set u | u in ids && u <= s[j]) == (set u | u in prefix) by {
      forall u | u in ids && u <= s[j] ensures u in prefix {
        var k :| 0 <= k < |s| && s[k] == u;
        assert k <= j;
        assert prefix[k] == u;
      }
    }
    DistinctCard(prefix);
  }

  /** Every new id is in `1..N`. */
  lemma RankBounds(ids: set<int>, v: int)
    requires v in ids
    ensures 1 <= Rank(ids, v) <= |ids|
  {
    var below := set u | u in ids && u <= v;
    assert v in below;
    assert below == {v} + (below - {v});
    assert |below| == 1 + |below - {v}|;
    assert ids == below + (ids - below);
    assert |ids| == |below| + |ids - below|;
  }

  /** Renumbering is strictly increasing on the grain labels. */
  lemma RankStrictlyIncreasing(ids: set<int>, u: int, v: int)
    requires u in ids && v in ids && u < v
    ensures Rank(ids, u) < Rank(ids, v)
  {
    var a := set w | w in ids && w <= u;
    var b := set w | w in ids && w <= v;
    assert a <= b;
    assert v in b - a;
    assert b == a + (b - a);
    assert |b| == |a| + |b - a|;
  }

  /** Every id `1..N` is taken by some grain label. */
  lemma RankOnto(ids: set<int>, k: int)
    requires 1 <= k <= |ids|
    ensures exists v :: v in ids && Rank(ids, v) == k
  {
    var s := AscendingListing(ids);
    DistinctAscending(s);
    DistinctCard(s);
    assert (set v | v in s) == ids;
    RankOfSorted(s, ids, k - 1);
  }

  /** Every finite set of ints has an ascending listing. */
  lemma AscendingListing(ids: set<int>) returns (s: seq<int>)
    ensures StrictlyIncreasing(s)
    ensures forall v :: v in s <==> v in ids
    decreases |ids|
  {
    if ids == {} {
      s := [];
    } else {
      HasMinimum(ids);
      var m :| m in ids && forall u :: u in ids ==> m <= u;
      var rest := AscendingListing(ids - {m});
      assert forall i :: 0 <= i < |rest| ==> m < rest[i] by {
        forall i | 0 <= i < |rest| ensures m < rest[i] {
          var u := rest[i];
          assert u in rest;
          assert u in ids && u != m;
        }
      }
      s := [m] + rest;
    }
  }

  /** Two grain pixels compare after the renumbering as they did before:
      the relabelling is strictly order-preserving, hence injective. */
  lemma RemapPreservesOrder(grid: Grid, y1: int, x1: int, y2: int, x2: int)
    requires |grid| > 0 && RowsCoverWidth(grid)
    requires 0 <= y1 < |grid| && 0 <= x1 < |grid[0]| && !IsReserved(grid[y1][x1])
    requires 0 <= y2 < |grid| && 0 <= x2 < |grid[0]| && !IsReserved(grid[y2][x2])
    ensures var g := RemappedGrid(grid);
      && (g[y1][x1] < g[y2][x2] <==> grid[y1][x1] < grid[y2][x2])
      && (g[y1][x1] == g[y2][x2] <==> grid[y1][x1] == grid[y2][x2])
  {
    var ids := GrainLabels(grid);
    var u, v := grid[y1][x1], grid[y2][x2];
    PixelInLabels(grid, y1, x1);
    PixelInLabels(grid, y2, x2);
    assert RemappedGrid(grid)[y1][x1] == Rank(ids, u);
    assert RemappedGrid(grid)[y2][x2] == Rank(ids, v);
    if u < v {
      RankStrictlyIncreasing(ids, u, v);
    } else if v < u {
      RankStrictlyIncreasing(ids, v, u);
    }
  }

  /** With fewer grains than the value of the void label, no new id can
      coincide with a reserved label, so any two pixels are equal after the
      renumbering exactly when they were equal before. */
  lemma RemapPreservesEquality(grid: Grid, y1: int, x1: int, y2: int, x2: int)
    requires |grid| > 0 && RowsCoverWidth(grid)
    requires |GrainLabels(grid)| < VOID_PIXEL_ID
    requires 0 <= y1 < |grid| && 0 <= x1 < |grid[0]|
    requires 0 <= y2 < |grid| && 0 <= x2 < |grid[0]|
    ensures var g := RemappedGrid(grid);
      g[y1][x1] == g[y2][x2] <==> grid[y1][x1] == grid[y2][x2]
  {
    var u, v := grid[y1][x1], grid[y2][x2];
    if !IsReserved(u) && !IsReserved(v) {
      RemapPreservesOrder(grid, y1, x1, y2, x2);
    }
  }

  /** A rectangular grid whose grain labels are exactly `1..n` comes back
      pixel for pixel. */
  lemma RemapDenseIsIdentity(grid: Grid, n: nat)
    requires |grid| > 0 && IsRectangular(grid)
    requires forall v :: v in GrainLabels(grid) <==> 1 <= v <= n
    ensures RowsCoverWidth(grid) && RemappedGrid(grid) == grid
  {
    var ids := GrainLabels(grid);
    var s := Interval(n);
    assert forall v :: v in s <==> v in ids by {
      forall v | v in ids ensures v in s {
        assert s[v - 1] == v;
      }
    }
    forall v | v in ids ensures Rank(ids, v) == v {
      RankOfSorted(s, ids, v - 1);
    }
    var g := RemappedGrid(grid);
    forall y | 0 <= y < |grid| ensures g[y] == grid[y] {
      forall x | 0 <= x < |grid[y]| ensures g[y][x] == grid[y][x] {
        PixelInLabels(grid, y, x);
      }
    }
  }

  /** Renumbering twice is renumbering once (rectangular grid, fewer grains
      than the void label's value). */
  lemma RemapIdempotent(grid: Grid)
    requires |grid| > 0 && IsRectangular(grid)
    requires |GrainLabels(grid)| < VOID_PIXEL_ID
    ensures RowsCoverWidth(grid)
    ensures var g := RemappedGrid(grid); RowsCoverWidth(g) && RemappedGrid(g) == g
  {
    RemappedLabelsWithin(grid);
    RemappedLabelsOnto(grid);
    RemapDenseIsIdentity(RemappedGrid(grid), |GrainLabels(grid)|);
  }

  /** Every grain label after the renumbering is a new id `1..n`. */
  lemma RemappedLabelsWithin(grid: Grid)
    requires |grid| > 0 && RowsCoverWidth(grid)
    ensures forall v :: v in GrainLabels(RemappedGrid(grid)) ==> 1 <= v <= |GrainLabels(grid)|
  {
    var g := RemappedGrid(grid);
    forall v | v in GrainLabels(g) ensures 1 <= v <= |GrainLabels(grid)| {
      assert v in Flatten(g);
      var y, x :| 0 <= y < |g| && 0 <= x < |g[y]| && g[y][x] == v;
    }
  }

  /** Every new id `1..n` occurs after the renumbering of a rectangular
      grid, and none of them is reserved when `n` is below the void label. */
  lemma RemappedLabelsOnto(grid: Grid)
    requires |grid| > 0 && IsRectangular(grid)
    requires |GrainLabels(grid)| < VOID_PIXEL_ID
    ensures forall v :: 1 <= v <= |GrainLabels(grid)| ==> v in GrainLabels(RemappedGrid(grid))
  {
    forall v | 1 <= v <= |GrainLabels(grid)| ensures v in GrainLabels(RemappedGrid(grid)) {
      NewIdOccurs(grid, v);
    }
  }

  lemma NewIdOccurs(grid: Grid, v: int)
    requires |grid| > 0 && IsRectangular(grid)
    requires 1 <= v <= |GrainLabels(grid)| < VOID_PIXEL_ID
    ensures v in GrainLabels(RemappedGrid(grid))
  {
    var ids := GrainLabels(grid);
    RankOnto(ids, v);
    var w :| w in ids && Rank(ids, w) == v;
    assert w in Flatten(grid);
    var y, x :| 0 <= y < |grid| && 0 <= x < |grid[y]| && grid[y][x] == w;
    RankOccurs(grid, y, x);
  }

  /** The new id of a grain pixel is a grain label of the renumbered grid. */
  lemma RankOccurs(grid: Grid, y: int, x: int)
    requires |grid| > 0 && IsRectangular(grid)
    requires 0 <= y < |grid| && 0 <= x < |grid[y]| && !IsReserved(grid[y][x])
    requires |GrainLabels(grid)| < VOID_PIXEL_ID
    ensures Rank(GrainLabels(grid), grid[y][x]) in GrainLabels(RemappedGrid(grid))
  {
    var ids := GrainLabels(grid);
    PixelInLabels(grid, y, x);
    RankBounds(ids, grid[y][x]);
    RemappedPixel(grid, y, x);
    GrainPixel(RemappedGrid(grid), y, x, Rank(ids, grid[y][x]));
  }

  lemma GrainPixel(g: Grid, y: int, x: int, v: int)
    requires 0 <= y < |g| && 0 <= x < |g[y]| && g[y][x] == v && !IsReserved(v)
    ensures v in GrainLabels(g)
  {
    PixelInLabels(g, y, x);
  }

  /** A grain pixel gets the rank of its label among the grain labels. */
  lemma RemappedPixel(grid: Grid, y: int, x: int)
    requires |grid| > 0 && RowsCoverWidth(grid)
    requires 0 <= y < |grid| && 0 <= x < |grid[0]|
    ensures !IsReserved(grid[y][x]) ==> RemappedGrid(grid)[y][x] == Rank(GrainLabels(grid), grid[y][x])
  {
  }

  // ---------------------------------------------------------------------
  // Centroids
  // ---------------------------------------------------------------------

  /** The columns `x < n` of `row` holding `v`, ascending. */
  function ColumnsOf(row: seq<int>, v: int, n: nat): seq<int>
    requires n <= |row|
  {
    if n == 0 then [] else ColumnsOf(row, v, n - 1) + (if row[n - 1] == v then [n - 1] else [])
  }

  /** The row index `y`, once for each column `x < n` of `row` holding `v`. */
  function RowOf(row: seq<int>, v: int, n: nat, y: int): seq<int>
    requires n <= |row|
  {
    if n == 0 then [] else RowOf(row, v, n - 1, y) + (if row[n - 1] == v then [y] else [])
  }

  /** Column indices of the pixels labelled `v` in rows `< n`, in scan order
      (the `"x"` list of `pixel_dict`). */
  function XsBefore(grid: Grid, v: int, n: nat): seq<int>
    requires n <= |grid|
  {
    if n == 0 then [] else XsBefore(grid, v, n - 1) + ColumnsOf(grid[n - 1], v, |grid[n - 1]|)
  }

  /** Row indices of the same pixels (the `"y"` list of `pixel_dict`). */
  function YsBefore(grid: Grid, v: int, n: nat): seq<int>
    requires n <= |grid|
  {
    if n == 0 then [] else YsBefore(grid, v, n - 1) + RowOf(grid[n - 1], v, |grid[n - 1]|, n - 1)
  }

  function Xs(grid: Grid, v: int): seq<int> { XsBefore(grid, v, |grid|) }

  function Ys(grid: Grid, v: int): seq<int> { YsBefore(grid, v, |grid|) }

  function Sum(s: seq<int>): int {
    if |s| == 0 then 0 else Sum(s[..|s| - 1]) + s[|s| - 1]
  }

  /** The arithmetic mean (`np.average`) of a non-empty list. */
  function Mean(s: seq<int>): (m: real)
    requires |s| > 0
    ensures m * |s| as real == Sum(s) as real
  {
    Sum(s) as real / |s| as real
  }

  /** The centroid of label `v`: mean column index and mean row index of
      its pixels. */
  function Centroid(grid: Grid, v: int): (real, real)
    requires v in Labels(grid)
  {
    LabelHasPixels(grid, v);
    (Mean(Xs(grid, v)), Mean(Ys(grid, v)))
  }

  /** Each coordinate of a centroid, times the label's pixel count, is the
      sum of that coordinate over the label's pixels. */
  lemma CentroidIsMean(grid: Grid, v: int)
    requires v in Labels(grid)
    ensures |Xs(grid, v)| == |Ys(grid, v)| > 0
    ensures Centroid(grid, v).0 * |Xs(grid, v)| as real == Sum(Xs(grid, v)) as real
    ensures Centroid(grid, v).1 * |Ys(grid, v)| as real == Sum(Ys(grid, v)) as real
  {
    LabelHasPixels(grid, v);
  }

  lemma {:induction false} RowLists(row: seq<int>, v: int, n: nat, y: int)
    requires n <= |row|
    ensures |ColumnsOf(row, v, n)| == |RowOf(row, v, n, y)|
    ensures forall k :: 0 <= k < |ColumnsOf(row, v, n)| ==>
      0 <= ColumnsOf(row, v, n)[k] < n && row[ColumnsOf(row, v, n)[k]] == v && RowOf(row, v, n, y)[k] == y
    ensures forall x :: 0 <= x < n && row[x] == v ==> x in ColumnsOf(row, v, n)
  {
    if n > 0 {
      RowLists(row, v, n - 1, y);
    }
  }

  lemma GridLists(grid: Grid, v: int, n: nat)
    requires n <= |grid|
    ensures |XsBefore(grid, v, n)| == |YsBefore(grid, v, n)|
    ensures forall k :: 0 <= k < |XsBefore(grid, v, n)| ==>
      var y, x := YsBefore(grid, v, n)[k], XsBefore(grid, v, n)[k];
      0 <= y < n && 0 <= x < |grid[y]| && grid[y][x] == v
    ensures forall y, x :: 0 <= y < n && 0 <= x < |grid[y]| && grid[y][x] == v ==>
      exists k :: 0 <= k < |XsBefore(grid, v, n)| && XsBefore(grid, v, n)[k] == x && YsBefore(grid, v, n)[k] == y
    ensures ScanOrdered(XsBefore(grid, v, n), YsBefore(grid, v, n))
  {
    GridListsSound(grid, v, n);
    GridListsComplete(grid, v, n);
    GridListsOrdered(grid, v, n);
  }

  /** The pairs `(xs[k], ys[k])` come in scan order, row by row and left to
      right within a row, so no pixel is listed twice. */
  predicate ScanOrdered(xs: seq<int>, ys: seq<int>)
    requires |xs| == |ys|
  {
    forall i, j :: 0 <= i < j < |xs| ==> ys[i] < ys[j] || (ys[i] == ys[j] && xs[i] < xs[j])
  }

  /** A row's columns holding `v` are listed in ascending order. */
  lemma {:induction false} ColumnsAscending(row: seq<int>, v: int, n: nat)
    requires n <= |row|
    ensures StrictlyIncreasing(ColumnsOf(row, v, n))
    ensures forall k :: 0 <= k < |ColumnsOf(row, v, n)| ==> ColumnsOf(row, v, n)[k] < n
  {
    if n > 0 {
      ColumnsAscending(row, v, n - 1);
    }
  }

  /** The pixel lists of rows `< n` are in scan order. */
  lemma {:induction false} GridListsOrdered(grid: Grid, v: int, n: nat)
    requires n <= |grid|
    ensures |XsBefore(grid, v, n)| == |YsBefore(grid, v, n)|
    ensures ScanOrdered(XsBefore(grid, v, n), YsBefore(grid, v, n))
  {
    GridListsSound(grid, v, n);
    if n > 0 {
      GridListsOrdered(grid, v, n - 1);
      GridListsSound(grid, v, n - 1);
      var row := grid[n - 1];
      RowLists(row, v, |row|, n - 1);
      ColumnsAscending(row, v, |row|);
      var xs0, ys0 := XsBefore(grid, v, n - 1), YsBefore(grid, v, n - 1);
      var cs, rs := ColumnsOf(row, v, |row|), RowOf(row, v, |row|, n - 1);
      assert XsBefore(grid, v, n) == xs0 + cs;
      assert YsBefore(grid, v, n) == ys0 + rs;
      AppendRowOrdered(xs0, ys0, cs, rs, n - 1);
    }
  }

  /** Appending one row's ascending columns, all at row `y`, to pairs of
      earlier rows keeps them in scan order. */
  lemma AppendRowOrdered(xs: seq<int>, ys: seq<int>, cs: seq<int>, rs: seq<int>, y: int)
    requires |xs| == |ys| && |cs| == |rs|
    requires ScanOrdered(xs, ys) && StrictlyIncreasing(cs)
    requires forall k :: 0 <= k < |ys| ==> ys[k] < y
    requires forall k :: 0 <= k < |rs| ==> rs[k] == y
    ensures ScanOrdered(xs + cs, ys + rs)
  {
    var xs', ys' := xs + cs, ys + rs;
    forall i, j | 0 <= i < j < |xs'|
      ensures ys'[i] < ys'[j] || (ys'[i] == ys'[j] && xs'[i] < xs'[j])
    {
      if j < |xs| {
        assert xs'[i] == xs[i] && xs'[j] == xs[j] && ys'[i] == ys[i] && ys'[j] == ys[j];
      } else if i < |xs| {
        assert ys'[i] == ys[i] && ys'[j] == rs[j - |xs|];
      } else {
        assert xs'[i] == cs[i - |xs|] && xs'[j] == cs[j - |xs|];
        assert ys'[i] == rs[i - |xs|] && ys'[j] == rs[j - |xs|];
      }
    }
  }

  /** Entry `k` of the two lists is a pixel of rows `< n` holding `v`. */
  lemma {:induction false} GridListsSound(grid: Grid, v: int, n: nat)
    requires n <= |grid|
    ensures |XsBefore(grid, v, n)| == |YsBefore(grid, v, n)|
    ensures forall k :: 0 <= k < |XsBefore(grid, v, n)| ==>
      var y, x := YsBefore(grid, v, n)[k], XsBefore(grid, v, n)[k];
      0 <= y < n && 0 <= x < |grid[y]| && grid[y][x] == v
  {
    if n > 0 {
      GridListsSound(grid, v, n - 1);
      var row := grid[n - 1];
      RowLists(row, v, |row|, n - 1);
      var xs0, ys0 := XsBefore(grid, v, n - 1), YsBefore(grid, v, n - 1);
      var cs, rs := ColumnsOf(row, v, |row|), RowOf(row, v, |row|, n - 1);
      assert XsBefore(grid, v, n) == xs0 + cs;
      assert YsBefore(grid, v, n) == ys0 + rs;
      assert |xs0 + cs| == |ys0 + rs|;
      forall k | 0 <= k < |xs0 + cs|
        ensures var y, x := (ys0 + rs)[k], (xs0 + cs)[k]; 0 <= y < n && 0 <= x < |grid[y]| && grid[y][x] == v
      {
        if k >= |xs0| {
          assert (xs0 + cs)[k] == cs[k - |xs0|] && (ys0 + rs)[k] == rs[k - |xs0|];
        }
      }
    }
  }

  /** Every pixel of rows `< n` holding `v` is an entry of the two lists. */
  lemma {:induction false} GridListsComplete(grid: Grid, v: int, n: nat)
    requires n <= |grid|
    ensures |XsBefore(grid, v, n)| == |YsBefore(grid, v, n)|
    ensures forall y, x :: 0 <= y < n && 0 <= x < |grid[y]| && grid[y][x] == v ==>
      exists k :: 0 <= k < |XsBefore(grid, v, n)| && XsBefore(grid, v, n)[k] == x && YsBefore(grid, v, n)[k] == y
  {
    GridListsSound(grid, v, n);
    if n > 0 {
      GridListsComplete(grid, v, n - 1);
      var row := grid[n - 1];
      RowLists(row, v, |row|, n - 1);
      var xs0, ys0 := XsBefore(grid, v, n - 1), YsBefore(grid, v, n - 1);
      var cs, rs := ColumnsOf(row, v, |row|), RowOf(row, v, |row|, n - 1);
      assert XsBefore(grid, v, n) == xs0 + cs;
      assert YsBefore(grid, v, n) == ys0 + rs;
      forall y, x | 0 <= y < n && 0 <= x < |grid[y]| && grid[y][x] == v
        ensures exists k :: 0 <= k < |xs0 + cs| && (xs0 + cs)[k] == x && (ys0 + rs)[k] == y
      {
        if y < n - 1 {
          PairInPrefix(xs0, ys0, cs, rs, x, y);
        } else {
          PairInSuffix(xs0, ys0, cs, rs, x, y);
        }
      }
    }
  }

  lemma PairInPrefix(xs: seq<int>, ys: seq<int>, cs: seq<int>, rs: seq<int>, x: int, y: int)
    requires |xs| == |ys| && |cs| == |rs|
    requires exists k :: 0 <= k < |xs| && xs[k] == x && ys[k] == y
    ensures exists k :: 0 <= k < |xs + cs| && (xs + cs)[k] == x && (ys + rs)[k] == y
  {
    var k :| 0 <= k < |xs| && xs[k] == x && ys[k] == y;
    assert (xs + cs)[k] == x && (ys + rs)[k] == y;
  }

  lemma PairInSuffix(xs: seq<int>, ys: seq<int>, cs: seq<int>, rs: seq<int>, x: int, y: int)
    requires |xs| == |ys| && |cs| == |rs|
    requires x in cs && forall k :: 0 <= k < |rs| ==> rs[k] == y
    ensures exists k :: 0 <= k < |xs + cs| && (xs + cs)[k] == x && (ys + rs)[k] == y
  {
    var k :| 0 <= k < |cs| && cs[k] == x;
    assert (xs + cs)[|xs| + k] == x && (ys + rs)[|xs| + k] == y;
  }

  /** The two lists of a label have one entry per pixel: entry `k` is a
      pixel `(Xs[k], Ys[k])` holding `v`, every pixel holding `v` appears,
      and the entries come in scan order, so none appears twice. */
  lemma PixelLists(grid: Grid, v: int)
    ensures |Xs(grid, v)| == |Ys(grid, v)|
    ensures forall k :: 0 <= k < |Xs(grid, v)| ==>
      var y, x := Ys(grid, v)[k], Xs(grid, v)[k];
      0 <= y < |grid| && 0 <= x < |grid[y]| && grid[y][x] == v
    ensures forall y, x :: 0 <= y < |grid| && 0 <= x < |grid[y]| && grid[y][x] == v ==>
      exists k :: 0 <= k < |Xs(grid, v)| && Xs(grid, v)[k] == x && Ys(grid, v)[k] == y
    ensures ScanOrdered(Xs(grid, v), Ys(grid, v))
  {
    GridLists(grid, v, |grid|);
  }

  /** A label has pixels exactly when it is present in the grid. */
  lemma LabelHasPixels(grid: Grid, v: int)
    ensures v in Labels(grid) <==> |Xs(grid, v)| > 0
    ensures |Xs(grid, v)| == |Ys(grid, v)|
  {
    PixelLists(grid, v);
    if v in Labels(grid) {
      assert v in Flatten(grid);
      var y, x :| 0 <= y < |grid| && 0 <= x < |grid[y]| && grid[y][x] == v;
    }
    if |Xs(grid, v)| > 0 {
      PixelInLabels(grid, Ys(grid, v)[0], Xs(grid, v)[0]);
    }
  }

  lemma {:induction false} SumBounds(s: seq<int>, lo: int, hi: int)
    requires forall k :: 0 <= k < |s| ==> lo <= s[k] <= hi
    ensures |s| * lo <= Sum(s) <= |s| * hi
  {
    if |s| > 0 {
      var init := s[..|s| - 1];
      SumBounds(init, lo, hi);
      assert |s| * lo == |init| * lo + lo && |s| * hi == |init| * hi + hi;
    }
  }

  /** The mean of values in `[lo, hi]` lies in `[lo, hi]`; the mean of a
      constant list is that constant. */
  lemma MeanBounds(s: seq<int>, lo: int, hi: int)
    requires |s| > 0
    requires forall k :: 0 <= k < |s| ==> lo <= s[k] <= hi
    ensures lo as real <= Mean(s) <= hi as real
  {
    SumBounds(s, lo, hi);
    QuotientBounds(Sum(s) as real, |s| as real, lo as real, hi as real);
  }

  /** Dividing by a positive count keeps a bound on the total per item. */
  lemma QuotientBounds(a: real, n: real, lo: real, hi: real)
    requires n > 0.0 && n * lo <= a <= n * hi
    ensures lo <= a / n <= hi
  {
    var q := a / n;
    assert (q - lo) * n == a - lo * n >= 0.0;
    assert (hi - q) * n == hi * n - a >= 0.0;
  }

  /** A label held by exactly one pixel has that pixel's coordinates as its
      centroid. */
  lemma SinglePixelCentroid(grid: Grid, v: int, y: int, x: int)
    requires 0 <= y < |grid| && 0 <= x < |grid[y]| && grid[y][x] == v
    requires forall y', x' :: 0 <= y' < |grid| && 0 <= x' < |grid[y']| && grid[y'][x'] == v ==> y' == y && x' == x
    ensures v in Labels(grid)
    ensures Centroid(grid, v) == (x as real, y as real)
  {
    PixelInLabels(grid, y, x);
    LabelHasPixels(grid, v);
    PixelLists(grid, v);
    MeanBounds(Xs(grid, v), x, x);
    MeanBounds(Ys(grid, v), y, y);
  }

  /** In a rectangular grid every centroid lies in `[0, width - 1] x
      [0, height - 1]`. */
  lemma CentroidInBounds(grid: Grid, v: int)
    requires IsRectangular(grid)
    requires v in Labels(grid)
    ensures 0.0 <= Centroid(grid, v).0 <= (|grid[0]| - 1) as real
    ensures 0.0 <= Centroid(grid, v).1 <= (|grid| - 1) as real
  {
    LabelHasPixels(grid, v);
    PixelLists(grid, v);
    MeanBounds(Xs(grid, v), 0, |grid[0]| - 1);
    MeanBounds(Ys(grid, v), 0, |grid| - 1);
  }

  /** `get_centroids`: one entry per distinct label of the grid (reserved
      labels included), holding the centroid of that label's pixels. */
  method GetCentroids(grid: Grid) returns (centroids: map<int, (real, real)>)
    ensures centroids.Keys == Labels(grid)
    ensures forall v :: v in centroids ==> centroids[v] == Centroid(grid, v)
  {
    var labels := set v | v in Flatten(grid);
    var pixels := CollectPixels(grid, labels);
    centroids := map[];
    var todo := labels;
    while todo != {}
      invariant todo <= labels
      invariant centroids.Keys == labels - todo
      invariant forall v :: v in centroids ==> centroids[v] == Centroid(grid, v)
      decreases |todo|
    {
      var v :| v in todo;
      LabelHasPixels(grid, v);
      centroids := centroids[v := (Mean(pixels[v].0), Mean(pixels[v].1))];
      todo := todo - {v};
    }
  }

  /** The position loops of `get_centroids`: every pixel appends its column
      to its label's `"x"` list and its row to the `"y"` list. */
  method CollectPixels(grid: Grid, labels: set<int>) returns (pixels: map<int, (seq<int>, seq<int>)>)
    requires labels == Labels(grid)
    ensures pixels.Keys == labels
    ensures forall v :: v in labels ==> pixels[v] == (Xs(grid, v), Ys(grid, v))
  {
    pixels := EmptyLists(labels);
    for y := 0 to |grid|
      invariant pixels.Keys == labels
      invariant forall v :: v in labels ==> pixels[v] == (XsBefore(grid, v, y), YsBefore(grid, v, y))
    {
      RowInLabels(grid, y);
      var before := pixels;
      pixels := AppendRow(grid[y], y, pixels);
      RowStep(grid, y, before, pixels);
    }
  }

  /** Position lists with nothing recorded yet, one pair per label. */
  function EmptyLists(labels: set<int>): (m: map<int, (seq<int>, seq<int>)>)
    ensures m.Keys == labels
    ensures forall v :: v in m ==> m[v] == ([], [])
  {
    map v | v in labels :: ([], [])
  }

  /** Every pixel of row `y` carries a label of the grid. */
  lemma RowInLabels(grid: Grid, y: int)
    requires 0 <= y < |grid|
    ensures forall x :: 0 <= x < |grid[y]| ==> grid[y][x] in Labels(grid)
  {
    forall x | 0 <= x < |grid[y]| ensures grid[y][x] in Labels(grid) {
      PixelInLabels(grid, y, x);
    }
  }

  /** Appending row `y` to the position lists of rows before it gives the
      lists of rows up to and including it. */
  lemma RowStep(grid: Grid, y: int, before: map<int, (seq<int>, seq<int>)>, after: map<int, (seq<int>, seq<int>)>)
    requires 0 <= y < |grid| && after.Keys == before.Keys
    requires forall v :: v in before ==> before[v] == (XsBefore(grid, v, y), YsBefore(grid, v, y))
    requires forall v :: v in before ==>
      after[v] == (before[v].0 + ColumnsOf(grid[y], v, |grid[y]|), before[v].1 + RowOf(grid[y], v, |grid[y]|, y))
    ensures forall v :: v in after ==> after[v] == (XsBefore(grid, v, y + 1), YsBefore(grid, v, y + 1))
  {
  }

  /** One row of the position loops: each pixel `(x, y)` of the row is
      appended to the lists of its label. */
  method AppendRow(row: seq<int>, y: int, pixels: map<int, (seq<int>, seq<int>)>)
    returns (out: map<int, (seq<int>, seq<int>)>)
    requires forall x :: 0 <= x < |row| ==> row[x] in pixels
    ensures out.Keys == pixels.Keys
    ensures forall v :: v in pixels ==>
      out[v] == (pixels[v].0 + ColumnsOf(row, v, |row|), pixels[v].1 + RowOf(row, v, |row|, y))
  {
    out := pixels;
    forall v | v in pixels
      ensures out[v] == (pixels[v].0 + ColumnsOf(row, v, 0), pixels[v].1 + RowOf(row, v, 0, y))
    {
      assert pixels[v].0 + [] == pixels[v].0;
      assert pixels[v].1 + [] == pixels[v].1;
    }
    for x := 0 to |row|
      invariant out.Keys == pixels.Keys
      invariant forall v :: v in pixels ==>
        out[v] == (pixels[v].0 + ColumnsOf(row, v, x), pixels[v].1 + RowOf(row, v, x, y))
    {
      var id := row[x];
      AppendPixel(row, y, pixels, out, x);
      out := out[id := (out[id].0 + [x], out[id].1 + [y])];
    }
  }

  /** Appending pixel `x` of the row to its label's lists extends the
      invariant of the row loop from `x` to `x + 1`. */
  lemma AppendPixel(row: seq<int>, y: int, pixels: map<int, (seq<int>, seq<int>)>,
                    before: map<int, (seq<int>, seq<int>)>, x: int)
    requires 0 <= x < |row| && row[x] in pixels && before.Keys == pixels.Keys
    requires forall v :: v in pixels ==>
      before[v] == (pixels[v].0 + ColumnsOf(row, v, x), pixels[v].1 + RowOf(row, v, x, y))
    ensures var id := row[x];
      var out := before[id := (before[id].0 + [x], before[id].1 + [y])];
      forall v :: v in pixels ==>
        out[v] == (pixels[v].0 + ColumnsOf(row, v, x + 1), pixels[v].1 + RowOf(row, v, x + 1, y))
  {
    var id := row[x];
    var out := before[id := (before[id].0 + [x], before[id].1 + [y])];
    forall v | v in pixels
      ensures out[v] == (pixels[v].0 + ColumnsOf(row, v, x + 1), pixels[v].1 + RowOf(row, v, x + 1, y))
    {
      if v == id {
        assert ColumnsOf(row, id, x + 1) == ColumnsOf(row, id, x) + [x];
        assert RowOf(row, id, x + 1, y) == RowOf(row, id, x, y) + [y];
        assert before[id].0 + [x] == pixels[id].0 + (ColumnsOf(row, id, x) + [x]);
        assert before[id].1 + [y] == pixels[id].1 + (RowOf(row, id, x, y) + [y]);
      } else {
        assert ColumnsOf(row, v, x + 1) == ColumnsOf(row, v, x) + [] == ColumnsOf(row, v, x);
        assert RowOf(row, v, x + 1, y) == RowOf(row, v, x, y) + [] == RowOf(row, v, x, y);
      }
    }
  }

  /** The raw centroids of a 2 x 2 grid whose rows hold labels 1 and 2:
      label 1 at column 0.5 of row 0, label 2 at column 0.5 of row 1. */
  lemma CentroidExample(g: Grid)
    requires g == [[1, 1], [2, 2]]
    ensures 1 in Labels(g) && 2 in Labels(g)
    ensures Centroid(g, 1) == (0.5, 0.0) && Centroid(g, 2) == (0.5, 1.0)
  {
    PixelInLabels(g, 0, 0);
    PixelInLabels(g, 1, 0);
    ExamplePixelLists(g);
    ExampleMeans();
  }

  lemma ExamplePixelLists(g: Grid)
    requires g == [[1, 1], [2, 2]]
    ensures Xs(g, 1) == [0, 1] && Ys(g, 1) == [0, 0]
    ensures Xs(g, 2) == [0, 1] && Ys(g, 2) == [1, 1]
  {
    ExampleRow(g[0], 1, 2, 0);
    ExampleRow(g[1], 2, 1, 1);
    assert |g[0]| == 2;
    assert YsBefore(g, 1, 1) == YsBefore(g, 1, 0) + RowOf(g[0], 1, 2, 0);
    assert YsBefore(g, 2, 1) == YsBefore(g, 2, 0) + RowOf(g[0], 2, 2, 0);
    assert XsBefore(g, 1, 1) == [] + [0, 1] && YsBefore(g, 1, 1) == [] + [0, 0];
    assert XsBefore(g, 2, 1) == [] + [] && YsBefore(g, 2, 1) == [] + [];
  }

  /** A row `[a, a]` lists both columns under `a` and none under `b`. */
  lemma ExampleRow(row: seq<int>, a: int, b: int, y: int)
    requires row == [a, a] && a != b
    ensures ColumnsOf(row, a, 2) == [0, 1] && RowOf(row, a, 2, y) == [y, y]
    ensures ColumnsOf(row, b, 2) == [] && RowOf(row, b, 2, y) == []
  {
    assert ColumnsOf(row, a, 1) == [0] && RowOf(row, a, 1, y) == [y];
    assert ColumnsOf(row, b, 1) == [] && RowOf(row, b, 1, y) == [];
  }

  lemma ExampleMeans()
    ensures Mean([0, 1]) == 0.5 && Mean([0, 0]) == 0.0 && Mean([1, 1]) == 1.0
  {
    assert [0, 1][..1] == [0] && [0, 0][..1] == [0] && [1, 1][..1] == [1];
    assert [0][..0] == [] && [1][..0] == [];
  }
}
