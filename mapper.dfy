/** Pieces of the grain mapper of crystalyser/ebsd/mapper.py: the `Edge`
    record whose weight is the running mean of its error samples, the
    candidate-edge loop of `map_ebsd`, and the centroids normalised by grid
    size. */
module Mapper {
  import opened Wrappers
  import opened Seqs
  import opened Gridder
  import opened Reader

  // ---------------------------------------------------------------------
  // Means of error samples
  // ---------------------------------------------------------------------

  function SumOf(s: seq<real>): real {
    if |s| == 0 then 0.0 else SumOf(s[..|s| - 1]) + s[|s| - 1]
  }

  /** The arithmetic mean (`np.average`) of a non-empty list of errors. */
  function Average(s: seq<real>): (a: real)
    requires |s| > 0
    ensures a * |s| as real == SumOf(s)
  {
    SumOf(s) / |s| as real
  }

  lemma {:induction false} SumOfBounds(s: seq<real>, lo: real, hi: real)
    requires forall k :: 0 <= k < |s| ==> lo <= s[k] <= hi
    ensures |s| as real * lo <= SumOf(s) <= |s| as real * hi
  {
    if |s| > 0 {
      SumOfBounds(s[..|s| - 1], lo, hi);
    }
  }

  /** The mean of errors in `[lo, hi]` lies in `[lo, hi]`; so the mean of a
      constant list is that constant. */
  lemma AverageBounds(s: seq<real>, lo: real, hi: real)
    requires |s| > 0
    requires forall k :: 0 <= k < |s| ==> lo <= s[k] <= hi
    ensures lo <= Average(s) <= hi
  {
    SumOfBounds(s, lo, hi);
    QuotientBounds(SumOf(s), |s| as real, lo, hi);
  }

  /** Appending a sample updates the mean incrementally: the new mean is
      the old one weighted by the old count, plus the sample, over the new
      count. */
  lemma AverageAppend(s: seq<real>, e: real)
    requires |s| > 0
    ensures Average(s + [e]) == (|s| as real * Average(s) + e) / (|s| + 1) as real
  {
    var t := s + [e];
    assert t[..|t| - 1] == s;
    var n := |s| as real;
    assert n * (SumOf(s) / n) == SumOf(s);
  }

  // ---------------------------------------------------------------------
  // Edges
  // ---------------------------------------------------------------------

  /** A candidate edge between a grain of the first map and a grain of the
      second; its weight is the mean of the errors added so far, or none
      before the first. */
  class Edge {
    var node1: int
    var node2: int
    var errors: seq<real>
    var weight: Option<real>

    /** The weight is never stale: it is the mean of all errors so far. */
    ghost predicate Valid()
      reads this
    {
      weight == if |errors| == 0 then None else Some(Average(errors))
    }

    constructor (node1: int, node2: int)
      ensures this.node1 == node1 && this.node2 == node2
      ensures errors == [] && weight == None
      ensures Valid()
    {
      this.node1 := node1;
      this.node2 := node2;
      errors := [];
      weight := None;
    }

    function GetNode1(): (n: int)
      reads this
      ensures n == node1
    {
      node1
    }

    /** As written, the second-node getter returns the first node. */
    function GetNode2(): (n: int)
      reads this
      ensures n == node1
    {
      node1
    }

    /** The weight is present exactly when some error was added, and is
        then their mean. */
    function GetWeight(): (w: Option<real>)
      reads this
      requires Valid()
      ensures w.Some? <==> |errors| > 0
      ensures w.Some? ==> w.value == Average(errors)
    {
      weight
    }

    /** Appends an error sample and recomputes the weight as the mean of
        all samples. */
    method AddError(e: real)
      requires Valid()
      modifies this
      ensures errors == old(errors) + [e]
      ensures weight == Some(Average(errors))
      ensures node1 == old(node1) && node2 == old(node2)
      ensures Valid()
    {
      errors := errors + [e];
      weight := Some(Average(errors));
    }
  }

  /** Both getters of an edge give its first node, whatever its second. */
  lemma EdgeGettersAgree(e: Edge)
    ensures e.GetNode2() == e.GetNode1()
  {
  }

  // ---------------------------------------------------------------------
  // Candidate edges
  // ---------------------------------------------------------------------

  /** The second-map labels the edge loop connects: each label of the
      second listing once, in first-occurrence order, when the first listing
      is non-empty; none otherwise. */
  function ConnectedIds(ids1: seq<int>, ids2: seq<int>): (c: seq<int>)
    ensures Distinct(c)
    ensures forall v :: v in c <==> |ids1| > 0 && v in ids2
    ensures |c| <= |ids2|
  {
    DedupSpec(ids2);
    if |ids1| == 0 then [] else Dedup(ids2)
  }

  /** When the second listing comes from a set (no duplicates) and the first
      is non-empty, the loop connects every label of the second listing, in
      its order, so it creates exactly one edge per label. */
  lemma ConnectedAll(ids1: seq<int>, ids2: seq<int>)
    requires |ids1| > 0 && Distinct(ids2)
    ensures ConnectedIds(ids1, ids2) == ids2
  {
    DedupOfDistinct(ids2);
  }

  /** Passing label `j` of the second listing in the first pass extends
      the connected labels by it exactly when it is new. */
  lemma ScanFirst(ids2: seq<int>, j: int)
    requires 0 <= j < |ids2|
    ensures var d := Dedup(ids2[..j]);
      Dedup(ids2[..j + 1]) == if ids2[j] in d then d else d + [ids2[j]]
  {
    assert ids2[..j + 1] == ids2[..j] + [ids2[j]];
    DedupSnoc(ids2[..j], ids2[j]);
  }

  /** The edge loop of `map_ebsd`: for each first-map label and each
      second-map label not yet connected, an edge is created and the label
      marked connected. Only the first first-map label ever gets edges. The
      listings are parameters because Python's set order is unspecified. */
  method BuildEdges(ids1: seq<int>, ids2: seq<int>) returns (edges: seq<Edge>, connected: seq<int>)
    ensures connected == ConnectedIds(ids1, ids2)
    ensures |edges| == |connected|
    ensures forall e :: e in edges ==> fresh(e)
    ensures forall k :: 0 <= k < |edges| ==> edges[k].node1 == ids1[0] && edges[k].node2 == connected[k]
    ensures forall k :: 0 <= k < |edges| ==> edges[k].errors == [] && edges[k].weight == None
    ensures forall i, j :: 0 <= i < j < |edges| ==> edges[i] != edges[j]
  {
    edges, connected := [], [];
    for i := 0 to |ids1|
      invariant connected == if i == 0 then [] else Dedup(ids2)
      invariant |edges| == |connected|
      invariant forall e :: e in edges ==> fresh(e)
      invariant i > 0 ==> NewEdges(edges, ids1[0], connected)
    {
      var added, after := ConnectPass(ids1[i], ids2, connected);
      edges, connected := edges + added, after;
    }
  }

  /** `added` are distinct, still unweighted edges from `id1` to the first
      `|added|` of `targets`, in order. */
  ghost predicate NewEdges(added: seq<Edge>, id1: int, targets: seq<int>)
    reads added
  {
    && |added| <= |targets|
    && (forall k :: 0 <= k < |added| ==>
         added[k].node1 == id1 && added[k].node2 == targets[k] && added[k].errors == [] && added[k].weight == None)
    && (forall i, j :: 0 <= i < j < |added| ==> added[i] != added[j])
  }

  lemma NewEdgesAppend(added: seq<Edge>, id1: int, targets: seq<int>, edge: Edge, id2: int)
    requires NewEdges(added, id1, targets) && |added| == |targets| && edge !in added
    requires edge.node1 == id1 && edge.node2 == id2 && edge.errors == [] && edge.weight == None
    ensures NewEdges(added + [edge], id1, targets + [id2])
  {
  }

  /** One pass of the inner loop over the second listing for first-map
      label `id1`: every label not yet connected gets a new edge from
      `id1` and is marked connected. Before the first pass nothing is
      connected; after it, every label is. */
  method ConnectPass(id1: int, ids2: seq<int>, connected: seq<int>) returns (added: seq<Edge>, after: seq<int>)
    requires connected == [] || connected == Dedup(ids2)
    ensures after == Dedup(ids2)
    ensures connected != [] ==> |added| == 0
    ensures |connected| + |added| == |after|
    ensures forall e :: e in added ==> fresh(e)
    ensures NewEdges(added, id1, after)
  {
    added, after := [], connected;
    for j := 0 to |ids2|
      invariant connected == [] ==> after == Dedup(ids2[..j]) && |added| == |after|
      invariant connected != [] ==> after == connected && |added| == 0
      invariant forall e :: e in added ==> fresh(e)
      invariant NewEdges(added, id1, after)
    {
      if connected == [] {
        ScanFirst(ids2, j);
      } else {
        DedupKeeps(ids2, j);
      }
      if ids2[j] in after {
        continue;
      }
      var edge := new Edge(id1, ids2[j]);
      NewEdgesAppend(added, id1, after, edge, ids2[j]);
      after := after + [ids2[j]];
      added := added + [edge];
    }
    assert ids2[..|ids2|] == ids2;
  }

  /** Every entry of the listing is among its deduplicated labels. */
  lemma DedupKeeps(ids2: seq<int>, j: int)
    requires 0 <= j < |ids2|
    ensures ids2[j] in Dedup(ids2)
  {
    DedupSpec(ids2);
  }

  // ---------------------------------------------------------------------
  // Normalised centroids
  // ---------------------------------------------------------------------

  /** Division by the width is defined: the first row is non-empty, or no
      pixel is divided at all. */
  predicate HasWidth(grid: Grid)
    requires |grid| > 0
  {
    |grid[0]| > 0 || Labels(grid) == {}
  }

  /** The centroid of label `v` as fractions of the grid's width (length of
      its first row) and height (number of rows). */
  function NormCentroid(grid: Grid, v: int): (c: (real, real))
    requires |grid| > 0 && |grid[0]| > 0 && v in Labels(grid)
    ensures c.0 * |grid[0]| as real == Centroid(grid, v).0
    ensures c.1 * |grid| as real == Centroid(grid, v).1
  {
    var c := Centroid(grid, v);
    var w, h := |grid[0]| as real, |grid| as real;
    QuotientTimes(c.0, w);
    QuotientTimes(c.1, h);
    (c.0 / w, c.1 / h)
  }

  lemma QuotientTimes(a: real, n: real)
    requires n > 0.0
    ensures a / n * n == a && a * n / n == a
  {
  }

  /** The scaling loop of `get_norm_centroids` for one grid: the raw
      centroids, each overwritten by its normalised value. */
  method NormalizeCentroids(grid: Grid) returns (centroids: map<int, (real, real)>)
    requires |grid| > 0 && HasWidth(grid)
    ensures centroids.Keys == Labels(grid)
    ensures forall v :: v in centroids ==> |grid[0]| > 0 && centroids[v] == NormCentroid(grid, v)
  {
    var xLen, yLen := |grid[0]|, |grid|;
    centroids := GetCentroids(grid);
    var todo := centroids.Keys;
    while todo != {}
      invariant todo <= centroids.Keys
      invariant Scaling(grid, centroids, todo)
      decreases |todo|
    {
      var v :| v in todo;
      var (x, y) := centroids[v];
      ScalingStep(grid, centroids, todo, v);
      centroids := centroids[v := (x / xLen as real, y / yLen as real)];
      todo := todo - {v};
    }
  }

  /** Midway through the scaling loop: every label still in `todo` holds
      its raw centroid, every other its normalised centroid. */
  ghost predicate Scaling(grid: Grid, centroids: map<int, (real, real)>, todo: set<int>)
    requires |grid| > 0 && HasWidth(grid)
  {
    && centroids.Keys == Labels(grid)
    && forall v :: v in centroids ==>
         if v in todo then centroids[v] == Centroid(grid, v)
         else |grid[0]| > 0 && centroids[v] == NormCentroid(grid, v)
  }

  /** Scaling one pending label moves it from the raw to the normalised
      side. */
  lemma ScalingStep(grid: Grid, centroids: map<int, (real, real)>, todo: set<int>, v: int)
    requires |grid| > 0 && HasWidth(grid) && Scaling(grid, centroids, todo) && v in todo && v in centroids
    ensures |grid[0]| > 0
    ensures Scaling(grid, centroids[v := (centroids[v].0 / |grid[0]| as real, centroids[v].1 / |grid| as real)], todo - {v})
  {
  }

  /** `get_norm_centroids`: the normalised centroids of both grids. Reading
      the first row of an empty grid raises IndexError. */
  method GetNormCentroids(grid1: Grid, grid2: Grid) returns (r: Result<(map<int, (real, real)>, map<int, (real, real)>)>)
    requires |grid1| > 0 ==> HasWidth(grid1)
    requires |grid2| > 0 ==> HasWidth(grid2)
    ensures r.Err? <==> |grid1| == 0 || |grid2| == 0
    ensures r.Err? ==> r.error == IndexError
    ensures r.Ok? ==> r.value.0.Keys == Labels(grid1) && r.value.1.Keys == Labels(grid2)
    ensures r.Ok? ==> forall v :: v in r.value.0 ==> |grid1[0]| > 0 && r.value.0[v] == NormCentroid(grid1, v)
    ensures r.Ok? ==> forall v :: v in r.value.1 ==> |grid2[0]| > 0 && r.value.1[v] == NormCentroid(grid2, v)
  {
    if |grid1| == 0 || |grid2| == 0 {
      return Err(IndexError);
    }
    var c1 := NormalizeCentroids(grid1);
    var c2 := NormalizeCentroids(grid2);
    r := Ok((c1, c2));
  }

  /** In a rectangular grid every normalised centroid lies in
      `[0, 1) x [0, 1)`. */
  lemma NormCentroidInUnitSquare(grid: Grid, v: int)
    requires |grid| > 0 && |grid[0]| > 0 && IsRectangular(grid)
    requires v in Labels(grid)
    ensures 0.0 <= NormCentroid(grid, v).0 < 1.0
    ensures 0.0 <= NormCentroid(grid, v).1 < 1.0
  {
    CentroidInBounds(grid, v);
    var c := Centroid(grid, v);
    var w, h := |grid[0]| as real, |grid| as real;
    DivideAtMost(c.0, w);
    DivideAtMost(c.1, h);
  }

  lemma DivideAtMost(a: real, w: real)
    requires 1.0 <= w && a <= w - 1.0
    ensures a / w < 1.0
  {
    assert a / w * w == a;
  }

  /** Two labels, one per row of a 2 x 2 grid: label 1 centres at a quarter
      of the width on the top edge, label 2 at a quarter of the width and
      half the height. */
  lemma NormCentroidExample(g: Grid)
    requires g == [[1, 1], [2, 2]]
    ensures 1 in Labels(g) && 2 in Labels(g)
    ensures NormCentroid(g, 1) == (0.25, 0.0)
    ensures NormCentroid(g, 2) == (0.25, 0.5)
  {
    CentroidExample(g);
    ScaledCentroid(g, 1, (0.25, 0.0));
    ScaledCentroid(g, 2, (0.25, 0.5));
  }

  /** `c` is the normalised centroid of `v` once scaling it back by the
      width and height gives the raw centroid. */
  lemma ScaledCentroid(grid: Grid, v: int, c: (real, real))
    requires |grid| > 0 && |grid[0]| > 0 && v in Labels(grid)
    requires Centroid(grid, v) == (c.0 * |grid[0]| as real, c.1 * |grid| as real)
    ensures NormCentroid(grid, v) == c
  {
    var w, h := |grid[0]| as real, |grid| as real;
    var raw := Centroid(grid, v);
    assert NormCentroid(grid, v) == (raw.0 / w, raw.1 / h);
    QuotientTimes(c.0, w);
    QuotientTimes(c.1, h);
    assert raw.0 / w == c.0;
    assert raw.1 / h == c.1;
  }
}
