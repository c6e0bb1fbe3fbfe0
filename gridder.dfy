/** Grid primitives of ebsd_analyser/ebsd/gridder.py: the reserved pixel
    labels, the void-filled grid, and 4-connected neighbourhoods of a pixel
    and of a pixel group. */
module Gridder {
  import opened Wrappers
  import opened Seqs

  /** Label of a pixel with no material. */
  const VOID_PIXEL_ID: int := 100000
  /** Label of an indexed pixel with no resolvable orientation. */
  const UNORIENTED_PIXEL_ID: int := 100001

  /** A pixel grid: rows of grain labels, indexed `grid[y][x]`. */
  type Grid = seq<seq<int>>

  /** A pixel coordinate `(x, y)`. */
  type Coord = (int, int)

  predicate IsReserved(id: int) {
    id == VOID_PIXEL_ID || id == UNORIENTED_PIXEL_ID
  }

  /** The reserved labels are the two consecutive ids `100000` and
      `100001`, so every id below `100000` is a grain label. */
  lemma ReservedIds(id: int)
    ensures IsReserved(id) <==> id == 100000 || id == 100001
    ensures id < 100000 ==> !IsReserved(id)
  {
  }

  /** The number of iterations of Python's `range(n)`. */
  function RangeLength(n: int): nat {
    if n < 0 then 0 else n
  }

  /** `y_cells` rows of `x_cells` void pixels each (a negative count gives
      no rows, or empty rows, as `range` does). */
  method VoidPixelGrid(xCells: int, yCells: int) returns (grid: Grid)
    ensures |grid| == RangeLength(yCells)
    ensures forall y :: 0 <= y < |grid| ==> |grid[y]| == RangeLength(xCells)
    ensures forall y, x :: 0 <= y < |grid| && 0 <= x < |grid[y]| ==> grid[y][x] == VOID_PIXEL_ID
  {
    grid := [];
    for y := 0 to RangeLength(yCells)
      invariant |grid| == y
      invariant forall r :: 0 <= r < y ==> |grid[r]| == RangeLength(xCells)
      invariant forall r, c :: 0 <= r < y && 0 <= c < |grid[r]| ==> grid[r][c] == VOID_PIXEL_ID
    {
      var pixels: seq<int> := [];
      for x := 0 to RangeLength(xCells)
        invariant |pixels| == x
        invariant forall c :: 0 <= c < x ==> pixels[c] == VOID_PIXEL_ID
      {
        pixels := pixels + [VOID_PIXEL_ID];
      }
      grid := grid + [pixels];
    }
  }

  predicate InBounds(c: Coord, xSize: int, ySize: int) {
    0 <= c.0 < xSize && 0 <= c.1 < ySize
  }

  /** `a` and `b` differ by exactly 1 in exactly one axis. */
  predicate Adjacent(a: Coord, b: Coord) {
    (a.0 == b.0 && (a.1 == b.1 - 1 || a.1 == b.1 + 1)) ||
    (a.1 == b.1 && (a.0 == b.0 - 1 || a.0 == b.0 + 1))
  }

  /** Position of a neighbour of `(x, y)` in the order the candidates are
      listed: left, right, `y - 1`, `y + 1`. */
  function Direction(c: Coord, x: int, y: int): int {
    if c == (x - 1, y) then 0
    else if c == (x + 1, y) then 1
    else if c == (x, y - 1) then 2
    else 3
  }

  function KeepInBounds(c: Coord, xSize: int, ySize: int): seq<Coord> {
    if InBounds(c, xSize, ySize) then [c] else []
  }

  /** The in-bounds 4-connected neighbours of pixel `(x, y)`: the candidate
      list left, right, `y - 1`, `y + 1`, filtered by the grid bounds. */
  function Neighbours(x: int, y: int, xSize: int, ySize: int): (r: seq<Coord>)
    ensures |r| <= 4
    ensures forall c :: c in r <==> InBounds(c, xSize, ySize) && Adjacent(c, (x, y))
  {
    var left, right := KeepInBounds((x - 1, y), xSize, ySize), KeepInBounds((x + 1, y), xSize, ySize);
    var up, down := KeepInBounds((x, y - 1), xSize, ySize), KeepInBounds((x, y + 1), xSize, ySize);
    var r := left + right + up + down;
    assert forall c :: c in r <==> c in left || c in right || c in up || c in down;
    r
  }

  /** The neighbours come in the candidate order left, right, `y - 1`,
      `y + 1`, so none is listed twice. */
  lemma NeighboursOrdered(x: int, y: int, xSize: int, ySize: int)
    ensures var r := Neighbours(x, y, xSize, ySize);
      forall i, j :: 0 <= i < j < |r| ==> Direction(r[i], x, y) < Direction(r[j], x, y)
    ensures Distinct(Neighbours(x, y, xSize, ySize))
  {
    var left, right := KeepInBounds((x - 1, y), xSize, ySize), KeepInBounds((x + 1, y), xSize, ySize);
    var up, down := KeepInBounds((x, y - 1), xSize, ySize), KeepInBounds((x, y + 1), xSize, ySize);
    var r := Neighbours(x, y, xSize, ySize);
    assert r == left + right + up + down;
    assert forall c :: c in left ==> Direction(c, x, y) == 0;
    assert forall c :: c in right ==> Direction(c, x, y) == 1;
    assert forall c :: c in up ==> Direction(c, x, y) == 2;
    assert forall c :: c in down ==> Direction(c, x, y) == 3;
  }

  /** A pixel off the border has all four neighbours. */
  lemma InteriorPixelNeighbours(x: int, y: int, xSize: int, ySize: int)
    requires 0 < x < xSize - 1 && 0 < y < ySize - 1
    ensures |Neighbours(x, y, xSize, ySize)| == 4
  {
  }

  /** The group's pixels `(xs[i], ys[i])`, as the comprehension over
      `range(len(x_list))` builds them. */
  function Group(xs: seq<int>, ys: seq<int>): (g: seq<Coord>)
    requires |xs| <= |ys|
    ensures |g| == |xs|
    ensures forall i :: 0 <= i < |xs| ==> g[i] == (xs[i], ys[i])
  {
    if |xs| == 0 then [] else [(xs[0], ys[0])] + Group(xs[1..], ys[1..])
  }

  /** `c` is a pixel of the group. */
  predicate InGroup(c: Coord, xs: seq<int>, ys: seq<int>)
    requires |xs| <= |ys|
  {
    exists i :: 0 <= i < |xs| && (xs[i], ys[i]) == c
  }

  /** `c` lies in the grid, touches some pixel of the group and is not
      itself a pixel of the group: the reference definition of the outer
      neighbourhood, stated without `Neighbours`. */
  predicate IsOuterNeighbour(c: Coord, xs: seq<int>, ys: seq<int>, xSize: int, ySize: int)
    requires |xs| <= |ys|
  {
    && InBounds(c, xSize, ySize)
    && (exists i :: 0 <= i < |xs| && Adjacent(c, (xs[i], ys[i])))
    && !InGroup(c, xs, ys)
  }

  /** The outer neighbours of the pixel group `(xs[i], ys[i])`: all the
      members' neighbours, duplicates and group members removed. Python
      raises IndexError when `ys` is shorter than `xs`; the order of the
      result comes from a Python set and is left open here, so only its
      elements are specified. */
  method AllNeighbours(xs: seq<int>, ys: seq<int>, xSize: int, ySize: int)
    returns (r: Result<seq<Coord>>)
    ensures r.Err? <==> |ys| < |xs|
    ensures r.Err? ==> r.error == IndexError
    ensures r.Ok? ==> Distinct(r.value)
    ensures r.Ok? ==> forall c :: c in r.value <==> IsOuterNeighbour(c, xs, ys, xSize, ySize)
  {
    var all: seq<Coord> := [];
    for i := 0 to |xs|
      invariant i <= |ys|
      invariant forall c :: c in all <==>
        exists k :: 0 <= k < i && InBounds(c, xSize, ySize) && Adjacent(c, (xs[k], ys[k]))
    {
      if i >= |ys| {
        return Err(IndexError);
      }
      all := all + Neighbours(xs[i], ys[i], xSize, ySize);
    }
    var group := Group(xs, ys);
    assert forall c :: c in group <==> InGroup(c, xs, ys) by {
      forall c | InGroup(c, xs, ys) ensures c in group {
        var i :| 0 <= i < |xs| && (xs[i], ys[i]) == c;
        assert group[i] == c;
      }
    }
    DedupSpec(all);
    r := Ok(Without(Dedup(all), group));
  }

  /** The outer neighbourhood of a single pixel is its neighbour list: the
      pixel is never its own neighbour, so nothing is removed. */
  lemma SinglePixelGroup(x: int, y: int, xSize: int, ySize: int)
    ensures forall c :: IsOuterNeighbour(c, [x], [y], xSize, ySize) <==> c in Neighbours(x, y, xSize, ySize)
  {
    forall c ensures IsOuterNeighbour(c, [x], [y], xSize, ySize) <==> c in Neighbours(x, y, xSize, ySize) {
      if c in Neighbours(x, y, xSize, ySize) {
        assert Adjacent(c, ([x][0], [y][0]));
        assert c != (x, y);
      }
    }
  }
}
