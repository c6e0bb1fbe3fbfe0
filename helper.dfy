/** List helpers of crystalyser/helper.py (`get_closest`, `quick_spline`,
    `get_thinned_list`, `get_sorted`); `get_sorted` is also, identically,
    in ebsd_analyser/helper.py. Floats are modelled as exact reals. */
module Helper {
  import opened Wrappers
  import opened Seqs

  // ---------------------------------------------------------------------
  // get_closest
  // ---------------------------------------------------------------------

  /** `abs(a - b)`. */
  function Dist(a: real, b: real): real {
    if a >= b then a - b else b - a
  }

  /** `k` is the first index whose x value is nearest to `x`: nothing is
      nearer, and every earlier index is strictly farther. */
  predicate IsFirstClosest(xs: seq<real>, x: real, k: int) {
    && 0 <= k < |xs|
    && (forall j :: 0 <= j < |xs| ==> Dist(xs[k], x) <= Dist(xs[j], x))
    && (forall j :: 0 <= j < k ==> Dist(xs[k], x) < Dist(xs[j], x))
  }

  /** `x_diff_list`: the distance of each x value to `x`. */
  function Diffs(xs: seq<real>, x: real): (d: seq<real>)
    ensures |d| == |xs|
    ensures forall j :: 0 <= j < |xs| ==> d[j] == Dist(xs[j], x)
  {
    seq(|xs|, j requires 0 <= j < |xs| => Dist(xs[j], x))
  }

  /** Python's `min` of a non-empty list. */
  function Min(s: seq<real>): (m: real)
    requires |s| > 0
    ensures m in s
    ensures forall j :: 0 <= j < |s| ==> m <= s[j]
  {
    if |s| == 1 then s[0]
    else
      var m := Min(s[..|s| - 1]);
      assert forall j :: 0 <= j < |s| - 1 ==> s[..|s| - 1][j] == s[j];
      if s[|s| - 1] < m then s[|s| - 1] else m
  }

  /** Python's `list.index`: the first position holding `v`. */
  function IndexOf(s: seq<real>, v: real): (k: nat)
    requires v in s
    ensures k < |s| && s[k] == v
    ensures forall j :: 0 <= j < k ==> s[j] != v
  {
    if s[0] == v then 0 else 1 + IndexOf(s[1..], v)
  }

  /** The index `get_closest` reads: the position of the least distance. */
  /** The `min`-then-`index` lookup finds the first nearest x value. */
  function ClosestIndex(xs: seq<real>, x: real): (k: nat)
    requires |xs| > 0
    ensures IsFirstClosest(xs, x, k)
  {
    var d := Diffs(xs, x);
    var m := Min(d);
    var k := IndexOf(d, m);
    assert forall j :: 0 <= j < k ==> Dist(xs[k], x) < Dist(xs[j], x) by {
      forall j | 0 <= j < k ensures Dist(xs[k], x) < Dist(xs[j], x) {
        assert d[j] != m && m <= d[j];
      }
    }
    k
  }

  /** There is only one first nearest index. */
  lemma FirstClosestUnique(xs: seq<real>, x: real, k1: int, k2: int)
    requires IsFirstClosest(xs, x, k1) && IsFirstClosest(xs, x, k2)
    ensures k1 == k2
  {
    assert Dist(xs[k1], x) <= Dist(xs[k2], x) && Dist(xs[k2], x) <= Dist(xs[k1], x);
  }

  /** `get_closest`: the y value at the first index whose x value is
      nearest to `x`. `min` of an empty list raises ValueError; reading
      past the end of `ys` raises IndexError. */
  function GetClosest(xs: seq<real>, ys: seq<real>, x: real): (r: Result<real>)
    ensures |xs| == 0 <==> r == Err(ValueError)
    ensures r.Err? && |xs| > 0 ==> r.error == IndexError && |ys| <= |xs| - 1
    ensures r.Ok? ==> exists k :: IsFirstClosest(xs, x, k) && k < |ys| && r.value == ys[k]
    ensures |xs| <= |ys| ==> (r.Ok? <==> |xs| > 0)
    ensures |xs| > 0 ==> (r.Ok? <==> ClosestIndex(xs, x) < |ys|)
    ensures r.Err? && |xs| > 0 ==> exists k :: IsFirstClosest(xs, x, k) && |ys| <= k
  {
    if |xs| == 0 then Err(ValueError)
    else
      var k := ClosestIndex(xs, x);
      if k < |ys| then Ok(ys[k]) else Err(IndexError)
  }

  // ---------------------------------------------------------------------
  // quick_spline
  // ---------------------------------------------------------------------

  /** Consecutive x values `i`, `i + 1` bracket `x`. */
  predicate Brackets(xs: seq<real>, x: real, i: int) {
    0 <= i < |xs| - 1 && xs[i] <= x <= xs[i + 1]
  }

  /** `j` is the first bracketing pair from pair `i` on. */
  predicate FirstBracketFrom(xs: seq<real>, x: real, i: int, j: int) {
    i <= j && Brackets(xs, x, j) && forall k :: i <= k < j ==> !Brackets(xs, x, k)
  }

  /** `i` is the first bracketing pair. */
  predicate FirstBracket(xs: seq<real>, x: real, i: int) {
    FirstBracketFrom(xs, x, 0, i)
  }

  /** The straight line through `(xs[i], ys[i])` and `(xs[i+1], ys[i+1])`,
      evaluated at `x`. */
  function Interpolate(xs: seq<real>, ys: seq<real>, i: int, x: real): (y: real)
    requires 0 <= i < |xs| - 1 && |ys| == |xs| && xs[i] != xs[i + 1]
    ensures x == xs[i] ==> y == ys[i]
    ensures x == xs[i + 1] ==> y == ys[i + 1]
  {
    var slope := (ys[i + 1] - ys[i]) / (xs[i + 1] - xs[i]);
    assert slope * (xs[i + 1] - xs[i]) == ys[i + 1] - ys[i];
    slope * (x - xs[i]) + ys[i]
  }

  /** The search loop of `quick_spline` from pair `i` on: the first
      bracketing pair from `i` is interpolated; a zero-width pair raises
      ZeroDivisionError; no bracketing pair gives None. */
  function SplineFrom(xs: seq<real>, ys: seq<real>, x: real, i: nat): (r: Result<Option<real>>)
    requires |ys| == |xs|
    ensures r.Ok? && r.value.None? <==> forall j :: i <= j < |xs| - 1 ==> !Brackets(xs, x, j)
    ensures r.Err? ==> r.error == ZeroDivisionError
    ensures r.Ok? && r.value.Some? ==>
      exists j :: FirstBracketFrom(xs, x, i, j) && xs[j] != xs[j + 1] && r.value.value == Interpolate(xs, ys, j, x)
    ensures r.Err? ==> exists j :: FirstBracketFrom(xs, x, i, j) && xs[j] == xs[j + 1]
    decreases |xs| - i
  {
    if i + 1 >= |xs| then Ok(None)
    else if xs[i] <= x <= xs[i + 1] then
      assert Brackets(xs, x, i);
      if xs[i + 1] == xs[i] then Err(ZeroDivisionError)
      else Ok(Some(Interpolate(xs, ys, i, x)))
    else
      FirstBracketFromNext(xs, x, i);
      SplineFrom(xs, ys, x, i + 1)
  }

  /** When pair `i` does not bracket `x`, the first bracketing pair from
      `i + 1` on is also the first from `i` on. */
  lemma FirstBracketFromNext(xs: seq<real>, x: real, i: int)
    requires !Brackets(xs, x, i)
    ensures forall j :: FirstBracketFrom(xs, x, i + 1, j) ==> FirstBracketFrom(xs, x, i, j)
  {
  }

  /** `quick_spline`: piecewise-linear evaluation at `x` on the first pair
      of consecutive x values that brackets it. Lists of different lengths
      raise ValueError. */
  function QuickSpline(xs: seq<real>, ys: seq<real>, x: real): (r: Result<Option<real>>)
    ensures r == Err(ValueError) <==> |xs| != |ys|
    ensures r == Ok(None) <==> |xs| == |ys| && forall j :: !Brackets(xs, x, j)
    ensures r == Err(ZeroDivisionError) <==>
      |xs| == |ys| && exists j :: FirstBracket(xs, x, j) && xs[j] == xs[j + 1]
    ensures r.Ok? && r.value.Some? ==>
      exists j :: FirstBracket(xs, x, j) && xs[j] != xs[j + 1] && r.value.value == Interpolate(xs, ys, j, x)
  {
    if |xs| != |ys| then Err(ValueError)
    else
      var r := SplineFrom(xs, ys, x, 0);
      FirstBracketUnique(xs, x);
      r
  }

  /** At most one pair is the first bracketing pair. */
  lemma FirstBracketUnique(xs: seq<real>, x: real)
    ensures forall i, j :: FirstBracket(xs, x, i) && FirstBracket(xs, x, j) ==> i == j
  {
  }

  /** On its first bracketing pair of distinct x values the spline is the
      straight line through that pair. */
  lemma SplineOnFirstBracket(xs: seq<real>, ys: seq<real>, x: real, i: int)
    requires |xs| == |ys| && FirstBracket(xs, x, i) && xs[i] != xs[i + 1]
    ensures QuickSpline(xs, ys, x) == Ok(Some(Interpolate(xs, ys, i, x)))
  {
    var r := QuickSpline(xs, ys, x);
    FirstBracketUnique(xs, x);
    assert Brackets(xs, x, i);
    assert r.Ok? && r.value.Some?;
    var j :| FirstBracket(xs, x, j) && xs[j] != xs[j + 1] && r.value.value == Interpolate(xs, ys, j, x);
  }

  /** With strictly increasing x values, an `x` bracketed by pair `i`
      gets a value between the y values of that pair. */
  lemma SplineBetween(xs: seq<real>, ys: seq<real>, x: real, i: int)
    requires |xs| == |ys|
    requires forall a, b :: 0 <= a < b < |xs| ==> xs[a] < xs[b]
    requires FirstBracket(xs, x, i)
    ensures QuickSpline(xs, ys, x).Ok? && QuickSpline(xs, ys, x).value.Some?
    ensures var y := QuickSpline(xs, ys, x).value.value;
      ys[i] <= y <= ys[i + 1] || ys[i + 1] <= y <= ys[i]
  {
    assert xs[i] < xs[i + 1];
    SplineOnFirstBracket(xs, ys, x, i);
    InterpolateBetween(xs, ys, i, x);
  }

  /** Between two knots of increasing x the line stays between their y
      values. */
  lemma InterpolateBetween(xs: seq<real>, ys: seq<real>, i: int, x: real)
    requires 0 <= i < |xs| - 1 && |ys| == |xs| && xs[i] < xs[i + 1]
    requires xs[i] <= x <= xs[i + 1]
    ensures var y := Interpolate(xs, ys, i, x); ys[i] <= y <= ys[i + 1] || ys[i + 1] <= y <= ys[i]
  {
    LineBetween(xs[i], xs[i + 1], ys[i], ys[i + 1], x);
  }

  /** The line through `(x0, y0)` and `(x1, y1)` stays between `y0` and
      `y1` over `[x0, x1]`. */
  lemma LineBetween(x0: real, x1: real, y0: real, y1: real, x: real)
    requires x0 < x1 && x0 <= x <= x1
    ensures var y := (y1 - y0) / (x1 - x0) * (x - x0) + y0;
      y0 <= y <= y1 || y1 <= y <= y0
  {
    var w := x1 - x0;
    var t := (x - x0) / w;
    FractionInUnit(x - x0, w);
    assert (y1 - y0) / w * (x - x0) == t * (y1 - y0);
    MixBetween(y0, y1, t);
  }

  lemma MixBetween(a: real, b: real, t: real)
    requires 0.0 <= t <= 1.0
    ensures a <= a + t * (b - a) <= b || b <= a + t * (b - a) <= a
  {
    if a <= b {
      ProductNonNegative(t, b - a);
      ProductNonNegative(1.0 - t, b - a);
    } else {
      ProductNonNegative(t, a - b);
      ProductNonNegative(1.0 - t, a - b);
    }
  }

  lemma ProductNonNegative(p: real, q: real)
    requires 0.0 <= p && 0.0 <= q
    ensures 0.0 <= p * q
  {
  }

  /** A part `p` of a positive whole `w` is a fraction in `[0, 1]`. */
  lemma FractionInUnit(p: real, w: real)
    requires 0.0 < w && 0.0 <= p <= w
    ensures 0.0 <= p / w <= 1.0
  {
  }

  /** With strictly increasing x values and at least two of them, the
      spline reproduces the y value at every knot (the first knot through
      the first pair, any other through the pair it ends). */
  lemma SplineAtKnot(xs: seq<real>, ys: seq<real>, j: int)
    requires |xs| == |ys| && |xs| >= 2
    requires forall a, b :: 0 <= a < b < |xs| ==> xs[a] < xs[b]
    requires 0 <= j < |xs|
    ensures QuickSpline(xs, ys, xs[j]) == Ok(Some(ys[j]))
  {
    var i := if j == 0 then 0 else j - 1;
    KnotBracket(xs, j);
    SplineOnFirstBracket(xs, ys, xs[j], i);
  }

  /** Knot `j` is first bracketed by the pair starting at `j - 1` (or at
      `0` for the first knot). */
  lemma KnotBracket(xs: seq<real>, j: int)
    requires |xs| >= 2
    requires forall a, b :: 0 <= a < b < |xs| ==> xs[a] < xs[b]
    requires 0 <= j < |xs|
    ensures var i := if j == 0 then 0 else j - 1;
      FirstBracket(xs, xs[j], i) && xs[i] != xs[i + 1]
  {
    var x := xs[j];
    var i := if j == 0 then 0 else j - 1;
    assert Brackets(xs, x, i);
    forall k | 0 <= k < i ensures !Brackets(xs, x, k) {
      assert xs[k + 1] < xs[j];
    }
  }

  /** The line through `(x0, y0)` and `(x1, y1)` passes through both. */
  lemma LineAtEnds(x0: real, x1: real, y0: real, y1: real)
    requires x0 != x1
    ensures (y1 - y0) / (x1 - x0) * (x0 - x0) + y0 == y0
    ensures (y1 - y0) / (x1 - x0) * (x1 - x0) + y0 == y1
  {
  }

  // ---------------------------------------------------------------------
  // get_thinned_list
  // ---------------------------------------------------------------------

  /** `thin_indexes`: `0`, then `floor(n / density * i)` for `i` in
      `1..density - 2`, then `n - 1`. */
  function ThinIndexes(n: nat, density: int): (idx: seq<int>)
    requires density != 0
    ensures |idx| == if density >= 2 then density else 2
    ensures idx[0] == 0 && idx[|idx| - 1] == n - 1
    ensures forall k :: 0 < k < |idx| - 1 ==> idx[k] == (n * k) / density
  {
    var middle := if density > 2 then density - 2 else 0;
    [0] + seq(middle, k requires 0 <= k < middle => (n * (k + 1)) / density) + [n - 1]
  }

  /** For a non-empty list every thinning index is a valid position, and
      the indexes never decrease. */
  lemma ThinIndexesInRange(n: nat, density: int)
    requires n > 0 && density != 0
    ensures var idx := ThinIndexes(n, density);
      (forall k :: 0 <= k < |idx| ==> 0 <= idx[k] < n) &&
      (forall k :: 0 <= k < |idx| - 1 ==> idx[k] <= idx[k + 1])
  {
    var idx := ThinIndexes(n, density);
    forall k | 0 < k < |idx| - 1
      ensures 0 <= idx[k] < n
      ensures k + 1 < |idx| - 1 ==> idx[k] <= idx[k + 1]
      ensures idx[k] <= n - 1
    {
      assert density > 2;
      FloorBelow(n, k, density);
      FloorMonotone(n, k, density);
    }
  }

  lemma FloorBelow(n: nat, k: nat, d: int)
    requires 0 < k < d
    ensures 0 <= (n * k) / d < n || n == 0
  {
    if n > 0 {
      assert n * k < n * d;
      assert (n * k) / d * d <= n * k;
    }
  }

  lemma FloorMonotone(n: nat, k: nat, d: int)
    requires d > 0
    ensures (n * k) / d <= (n * (k + 1)) / d
  {
    var a, b := n * k, n * (k + 1);
    assert a <= b;
    var q := a / d;
    assert q * d <= a <= b;
    if b / d < q {
      ProductMonotone(b / d + 1, q, d);
      assert false;
    }
  }

  lemma ProductMonotone(p: int, q: int, d: int)
    requires p <= q && 0 < d
    ensures p * d <= q * d
  {
  }

  /** `get_thinned_list`: the entries at the thinning indexes. A density of
      zero raises ZeroDivisionError; an empty list raises IndexError. */
  function GetThinnedList<T>(list: seq<T>, density: int): (r: Result<seq<T>>)
    ensures r == Err(ZeroDivisionError) <==> density == 0
    ensures r == Err(IndexError) <==> density != 0 && |list| == 0
    ensures r.Ok? ==> |r.value| == (if density >= 2 then density else 2)
    ensures r.Ok? ==> r.value[0] == list[0] && r.value[|r.value| - 1] == list[|list| - 1]
    ensures r.Ok? ==> forall k :: 0 <= k < |r.value| ==> r.value[k] in list
    ensures r.Ok? ==> density != 0 && |r.value| == |ThinIndexes(|list|, density)|
    ensures r.Ok? ==> forall k :: 0 <= k < |r.value| ==>
      var i := ThinIndexes(|list|, density)[k]; 0 <= i < |list| && r.value[k] == list[i]
  {
    if density == 0 then Err(ZeroDivisionError)
    else if |list| == 0 then Err(IndexError)
    else
      var idx := ThinIndexes(|list|, density);
      ThinIndexesInRange(|list|, density);
      Ok(seq(|idx|, k requires 0 <= k < |idx| => list[idx[k]]))
  }

  // ---------------------------------------------------------------------
  // get_sorted
  // ---------------------------------------------------------------------

  /** `a` may come before `b`: descending when `reverse`, else ascending. */
  predicate Precedes(a: real, b: real, reverse: bool) {
    if reverse then a >= b else a <= b
  }

  predicate Ordered(s: seq<real>, reverse: bool) {
    forall i, j :: 0 <= i < j < |s| ==> Precedes(s[i], s[j], reverse)
  }

  function Insert(x: real, s: seq<real>, reverse: bool): (r: seq<real>)
    requires Ordered(s, reverse)
    ensures Ordered(r, reverse)
    ensures multiset(r) == multiset(s) + multiset{x}
  {
    if |s| == 0 then [x]
    else if Precedes(x, s[0], reverse) then [x] + s
    else
      var rest := Insert(x, s[1..], reverse);
      assert s == [s[0]] + s[1..];
      HeadPrecedesInserted(x, s, reverse, rest);
      [s[0]] + rest
  }

  /** When `x` goes after the head, the head precedes every element of the
      tail with `x` inserted. */
  lemma HeadPrecedesInserted(x: real, s: seq<real>, reverse: bool, rest: seq<real>)
    requires |s| > 0 && Ordered(s, reverse) && !Precedes(x, s[0], reverse)
    requires multiset(rest) == multiset(s[1..]) + multiset{x}
    ensures forall k :: 0 <= k < |rest| ==> Precedes(s[0], rest[k], reverse)
  {
    forall k | 0 <= k < |rest| ensures Precedes(s[0], rest[k], reverse) {
      assert rest[k] in multiset(s[1..]) + multiset{x};
      if rest[k] != x {
        var j :| 0 <= j < |s[1..]| && s[1..][j] == rest[k];
        assert s[1 + j] == rest[k];
      }
    }
  }

  /** Python's `sorted(values, reverse=reverse)`: an ordered permutation
      of the values (the only one, by `OrderedPermutationUnique`). */
  function SortedBy(values: seq<real>, reverse: bool): (r: seq<real>)
    ensures Ordered(r, reverse)
    ensures multiset(r) == multiset(values)
  {
    if |values| == 0 then []
    else
      assert values == values[..|values| - 1] + [values[|values| - 1]];
      Insert(values[|values| - 1], SortedBy(values[..|values| - 1], reverse), reverse)
  }

  /** The first entry of an ordered sequence precedes every value in it. */
  lemma HeadPrecedes(s: seq<real>, reverse: bool, v: real)
    requires Ordered(s, reverse) && v in multiset(s)
    ensures Precedes(s[0], v, reverse)
  {
    var i :| 0 <= i < |s| && s[i] == v;
    if i > 0 {
      assert Precedes(s[0], s[i], reverse);
    }
  }

  /** Two ordered permutations of the same values are equal, so `SortedBy`
      is determined by its contract. */
  lemma {:induction false} OrderedPermutationUnique(a: seq<real>, b: seq<real>, reverse: bool)
    requires Ordered(a, reverse) && Ordered(b, reverse)
    requires multiset(a) == multiset(b)
    ensures a == b
  {
    assert |a| == |multiset(a)| == |multiset(b)| == |b|;
    if |a| > 0 {
      OrderedPermutationHeads(a, b, reverse);
      TailPermutation(a);
      TailPermutation(b);
      assert Ordered(a[1..], reverse) && Ordered(b[1..], reverse);
      OrderedPermutationUnique(a[1..], b[1..], reverse);
      assert a == [a[0]] + a[1..] && b == [b[0]] + b[1..];
    }
  }

  /** Two non-empty ordered permutations start with the same value. */
  lemma OrderedPermutationHeads(a: seq<real>, b: seq<real>, reverse: bool)
    requires Ordered(a, reverse) && Ordered(b, reverse)
    requires multiset(a) == multiset(b) && |a| > 0 && |b| > 0
    ensures a[0] == b[0]
  {
    assert a[0] in multiset(a) && b[0] in multiset(b);
    HeadPrecedes(b, reverse, a[0]);
    HeadPrecedes(a, reverse, b[0]);
  }

  /** Dropping the head removes one occurrence of it. */
  lemma TailPermutation(s: seq<real>)
    requires |s| > 0
    ensures multiset(s[1..]) == multiset(s) - multiset{s[0]}
  {
    assert s == [s[0]] + s[1..];
  }

  /** How many positions `< n` not listed in `used` hold `v`. */
  function Unused(values: seq<real>, used: seq<int>, n: nat, v: real): nat
    requires n <= |values|
  {
    if n == 0 then 0
    else Unused(values, used, n - 1, v) + (if n - 1 !in used && values[n - 1] == v then 1 else 0)
  }

  /** With nothing used, the count is the multiplicity of `v` in the
      first `n` values. */
  lemma {:induction false} UnusedAll(values: seq<real>, n: nat, v: real)
    requires n <= |values|
    ensures Unused(values, [], n, v) == multiset(values[..n])[v]
  {
    if n > 0 {
      UnusedAll(values, n - 1, v);
      assert values[..n] == values[..n - 1] + [values[n - 1]];
    }
  }

  /** Marking position `i < n` used removes exactly one occurrence of its
      value. */
  lemma {:induction false} UnusedMark(values: seq<real>, used: seq<int>, i: int, n: nat, v: real)
    requires n <= |values| && 0 <= i < n && i !in used
    ensures Unused(values, used + [i], n, v) == Unused(values, used, n, v) - (if values[i] == v then 1 else 0)
  {
    if n - 1 == i {
      UnusedBelow(values, used, i, n - 1, v);
    } else {
      UnusedMark(values, used, i, n - 1, v);
      UnusedHas(values, used, i, n - 1);
    }
  }

  /** Marking a position at or beyond `n` changes nothing below `n`. */
  lemma {:induction false} UnusedBelow(values: seq<real>, used: seq<int>, i: int, n: nat, v: real)
    requires n <= |values| && n <= i
    ensures Unused(values, used + [i], n, v) == Unused(values, used, n, v)
  {
    if n > 0 {
      assert n - 1 in used + [i] <==> n - 1 in used;
      UnusedBelow(values, used, i, n - 1, v);
    }
  }

  /** An unused position counts towards its own value. */
  lemma {:induction false} UnusedHas(values: seq<real>, used: seq<int>, i: int, n: nat)
    requires n <= |values| && 0 <= i < n && i !in used
    ensures Unused(values, used, n, values[i]) > 0
  {
    if i < n - 1 {
      UnusedHas(values, used, i, n - 1);
    }
  }

  /** A value with a positive count sits at some unused position. */
  lemma {:induction false} UnusedWitness(values: seq<real>, used: seq<int>, v: real, n: nat)
    requires n <= |values| && Unused(values, used, n, v) > 0
    ensures exists i :: 0 <= i < n && i !in used && values[i] == v
  {
    if !(n - 1 !in used && values[n - 1] == v) {
      UnusedWitness(values, used, v, n - 1);
    }
  }

  /** Each sorted value's index is the first position holding that value
      not already taken by an earlier sorted value. */
  predicate FirstUnused(values: seq<real>, sortedValues: seq<real>, idx: seq<int>)
    requires |idx| <= |sortedValues|
    requires forall k :: 0 <= k < |idx| ==> 0 <= idx[k] < |values|
  {
    forall k, j :: 0 <= k < |idx| && 0 <= j < idx[k] && values[j] == sortedValues[k] ==> j in idx[..k]
  }

  /** `idx` pairs the first `|idx|` sorted values with distinct original
      positions holding them, each the first such position still free. */
  predicate Matched(values: seq<real>, sortedValues: seq<real>, idx: seq<int>) {
    && |idx| <= |sortedValues|
    && (forall k :: 0 <= k < |idx| ==> 0 <= idx[k] < |values| && values[idx[k]] == sortedValues[k])
    && Distinct(idx)
    && FirstUnused(values, sortedValues, idx)
  }

  /** Pairing the next sorted value with the first free position holding
      it keeps the pairing matched. */
  lemma MatchedExtend(values: seq<real>, sortedValues: seq<real>, idx: seq<int>, i: int)
    requires Matched(values, sortedValues, idx) && |idx| < |sortedValues|
    requires 0 <= i < |values| && i !in idx && values[i] == sortedValues[|idx|]
    requires forall j :: 0 <= j < i ==> !(values[j] == sortedValues[|idx|] && j !in idx)
    ensures Matched(values, sortedValues, idx + [i])
  {
    var idx' := idx + [i];
    assert forall m :: 0 <= m <= |idx| ==> idx'[..m] == idx[..m];
  }

  /** The inner search of `get_sorted`: the first position holding `value`
      that is not yet in `used`. */
  method FindUnused(values: seq<real>, used: seq<int>, value: real) returns (i: int)
    requires exists j :: 0 <= j < |values| && j !in used && values[j] == value
    ensures 0 <= i < |values| && i !in used && values[i] == value
    ensures forall j :: 0 <= j < i ==> !(values[j] == value && j !in used)
  {
    i := 0;
    while !(values[i] == value && i !in used)
      invariant 0 <= i < |values|
      invariant forall j :: 0 <= j < i ==> !(values[j] == value && j !in used)
      decreases |values| - i
    {
      i := i + 1;
    }
  }

  /** `get_sorted`: the values sorted (descending when `reverse`) and, for
      each, the first unused original position holding it. */
  method GetSorted(values: seq<real>, reverse: bool) returns (sortedValues: seq<real>, idx: seq<int>)
    ensures Ordered(sortedValues, reverse)
    ensures multiset(sortedValues) == multiset(values)
    ensures |sortedValues| == |idx| == |values|
    ensures forall k :: 0 <= k < |idx| ==> 0 <= idx[k] < |values| && values[idx[k]] == sortedValues[k]
    ensures Distinct(idx)
    ensures forall i :: 0 <= i < |values| ==> i in idx
    ensures FirstUnused(values, sortedValues, idx)
  {
    sortedValues := SortedBy(values, reverse);
    idx := [];
    UnusedStart(values, sortedValues);
    for k := 0 to |sortedValues|
      invariant |idx| == k
      invariant Matched(values, sortedValues, idx)
      invariant forall v :: Unused(values, idx, |values|, v) == multiset(sortedValues[k..])[v]
    {
      UnusedWitness(values, idx, sortedValues[k], |values|);
      var i := FindUnused(values, idx, sortedValues[k]);
      UnusedExtend(values, sortedValues, idx, i);
      MatchedExtend(values, sortedValues, idx, i);
      idx := idx + [i];
    }
    MatchedAll(values, sortedValues, idx);
  }

  /** Before any position is taken, each value's count of free positions is
      its multiplicity among the sorted values. */
  lemma UnusedStart(values: seq<real>, sortedValues: seq<real>)
    requires multiset(sortedValues) == multiset(values)
    ensures forall v :: Unused(values, [], |values|, v) == multiset(sortedValues[0..])[v]
  {
    assert values[..|values|] == values;
    assert sortedValues[0..] == sortedValues;
    forall v ensures Unused(values, [], |values|, v) == multiset(sortedValues)[v] {
      UnusedAll(values, |values|, v);
    }
  }

  /** Taking the free position `i` for the next sorted value keeps the
      counts equal to the multiplicities of the values still to place. */
  lemma UnusedExtend(values: seq<real>, sortedValues: seq<real>, idx: seq<int>, i: int)
    requires |idx| < |sortedValues|
    requires forall v :: Unused(values, idx, |values|, v) == multiset(sortedValues[|idx|..])[v]
    requires 0 <= i < |values| && i !in idx && values[i] == sortedValues[|idx|]
    ensures forall v :: Unused(values, idx + [i], |values|, v) == multiset(sortedValues[|idx| + 1..])[v]
  {
    var k := |idx|;
    assert sortedValues[k..] == [sortedValues[k]] + sortedValues[k + 1..];
    forall v ensures Unused(values, idx + [i], |values|, v) == multiset(sortedValues[k + 1..])[v] {
      UnusedMark(values, idx, i, |values|, v);
    }
  }

  /** A matching of all the sorted values pairs them with every position. */
  lemma MatchedAll(values: seq<real>, sortedValues: seq<real>, idx: seq<int>)
    requires multiset(sortedValues) == multiset(values)
    requires Matched(values, sortedValues, idx) && |idx| == |sortedValues|
    ensures |idx| == |values|
    ensures forall i :: 0 <= i < |values| ==> i in idx
  {
    assert |sortedValues| == |multiset(sortedValues)| == |values|;
    IndexesCover(idx, |values|);
  }

  /** `n` distinct indexes in `[0, n)` cover all of `[0, n)`. */
  lemma IndexesCover(idx: seq<int>, n: nat)
    requires |idx| == n && Distinct(idx)
    requires forall k :: 0 <= k < n ==> 0 <= idx[k] < n
    ensures forall i :: 0 <= i < n ==> i in idx
  {
    var listed := set v | v in idx;
    DistinctCard(idx);
    var all := RangeSet(n);
    assert listed <= all;
    assert |all - listed| == |all| - |listed| == 0;
    assert all - listed == {};
    forall i | 0 <= i < n ensures i in idx {
      assert i in all && i !in all - listed;
    }
  }

  /** The indexes `0..n - 1`, as a set. */
  function RangeSet(n: nat): (r: set<int>)
    ensures forall i :: i in r <==> 0 <= i < n
    ensures |r| == n
  {
    if n == 0 then {} else RangeSet(n - 1) + {n - 1}
  }

  /** Equal values keep their original order in the index list: the first
      unused match is always the next one along. */
  lemma TiesAscending(values: seq<real>, sortedValues: seq<real>, idx: seq<int>)
    requires |idx| <= |sortedValues|
    requires forall k :: 0 <= k < |idx| ==> 0 <= idx[k] < |values| && values[idx[k]] == sortedValues[k]
    requires Distinct(idx)
    requires FirstUnused(values, sortedValues, idx)
    ensures forall k1, k2 :: 0 <= k1 < k2 < |idx| && sortedValues[k1] == sortedValues[k2] ==> idx[k1] < idx[k2]
  {
    forall k1, k2 | 0 <= k1 < k2 < |idx| && sortedValues[k1] == sortedValues[k2]
      ensures idx[k1] < idx[k2]
    {
      assert idx[k1] != idx[k2];
      assert values[idx[k2]] == sortedValues[k1];
    }
  }
}
