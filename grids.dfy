/** Regular lattices: `np.linspace`, square grids of values (the R x R arrays
    that interpolation and smoothing produce), `np.full_like`, the grid-wide
    `min()` and `max()`, and the row-major flattening that turns a grid of
    per-node values into the vertex list of a mesh. */
module Grids {
  import opened Stats

  type Grid = seq<seq<real>>

  /** Every row has `cols` entries. */
  predicate IsRect<T>(g: seq<seq<T>>, cols: nat)
  {
    forall i :: 0 <= i < |g| ==> |g[i]| == cols
  }

  /** An n x n grid, indexed `g[i][j]` with i the row (the y index of the
      lattice) and j the column (the x index). */
  predicate IsSquare(g: Grid, n: nat)
  {
    |g| == n && IsRect(g, n)
  }

  /** `np.full((n, n), v)`: the fallback grids of the interpolation step. */
  function Fill(n: nat, v: real): (g: Grid)
    ensures IsSquare(g, n)
  {
    seq(n, i => seq(n, j => v))
  }

  /** `grid.min()` */
  function GridMin(g: Grid): (r: real)
    requires |g| > 0 && forall i :: 0 <= i < |g| ==> |g[i]| > 0
    ensures forall i, j :: 0 <= i < |g| && 0 <= j < |g[i]| ==> r <= g[i][j]
  {
    if |g| == 1 then Min(g[0])
    else
      var rest := GridMin(g[1..]);
      assert forall i :: 1 <= i < |g| ==> g[1..][i - 1] == g[i];
      if Min(g[0]) <= rest then Min(g[0]) else rest
  }

  /** `grid.min()` is an entry of the grid. */
  lemma {:induction false} GridMinAttained(g: Grid)
    requires |g| > 0 && forall i :: 0 <= i < |g| ==> |g[i]| > 0
    ensures exists i, j :: 0 <= i < |g| && 0 <= j < |g[i]| && GridMin(g) == g[i][j]
  {
    var j := ArgMin(g[0]);
    assert g[0][j] == Min(g[0]);
    if |g| > 1 {
      GridMinAttained(g[1..]);
      var i', j' :| 0 <= i' < |g| - 1 && 0 <= j' < |g[1..][i']| && GridMin(g[1..]) == g[1..][i'][j'];
      assert g[i' + 1][j'] == GridMin(g[1..]);
    }
  }

  /** `grid.max()` */
  function GridMax(g: Grid): (r: real)
    requires |g| > 0 && forall i :: 0 <= i < |g| ==> |g[i]| > 0
    ensures forall i, j :: 0 <= i < |g| && 0 <= j < |g[i]| ==> g[i][j] <= r
  {
    if |g| == 1 then Max(g[0])
    else
      var rest := GridMax(g[1..]);
      assert forall i :: 1 <= i < |g| ==> g[1..][i - 1] == g[i];
      if Max(g[0]) >= rest then Max(g[0]) else rest
  }

  /** `grid.max()` is an entry of the grid. */
  lemma {:induction false} GridMaxAttained(g: Grid)
    requires |g| > 0 && forall i :: 0 <= i < |g| ==> |g[i]| > 0
    ensures exists i, j :: 0 <= i < |g| && 0 <= j < |g[i]| && GridMax(g) == g[i][j]
  {
    var j := ArgMax(g[0]);
    assert g[0][j] == Max(g[0]);
    if |g| > 1 {
      GridMaxAttained(g[1..]);
      var i', j' :| 0 <= i' < |g| - 1 && 0 <= j' < |g[1..][i']| && GridMax(g[1..]) == g[1..][i'][j'];
      assert g[i' + 1][j'] == GridMax(g[1..]);
    }
  }

  /** The spacing of `np.linspace(a, b, n)` for n >= 2. */
  function Step(a: real, b: real, n: nat): real
    requires n >= 2
  {
    (b - a) / ((n - 1) as real)
  }

  /** `np.linspace(a, b, n)`: n evenly spaced values from a to b inclusive; a
      single value a when n == 1; nothing when n == 0.  As numpy does, the
      last value is set to b exactly. */
  function Linspace(a: real, b: real, n: nat): (r: seq<real>)
    ensures |r| == n
    ensures n >= 1 ==> r[0] == a
    ensures n >= 2 ==> r[n - 1] == b
  {
    seq(n, k requires 0 <= k < n =>
      if n == 1 then a
      else if k == n - 1 then b
      else a + (k as real) * Step(a, b, n))
  }

  lemma DivTimes(d: real, m: real)
    requires m > 0.0
    ensures m * (d / m) == d
  {
  }

  /** Every value of the lattice, the last included, is a + k * step. */
  lemma LinspaceAt(a: real, b: real, n: nat, k: nat)
    requires n >= 2 && k < n
    ensures Linspace(a, b, n)[k] == a + (k as real) * Step(a, b, n)
  {
    if k == n - 1 {
      DivTimes(b - a, (n - 1) as real);
    }
  }

  lemma StepNegative(a: real, b: real, n: nat)
    requires n >= 2 && a > b
    ensures Step(a, b, n) < 0.0
  {
  }

  lemma TimesNegativeStep(k: nat, k': nat, st: real)
    requires k < k' && st < 0.0
    ensures (k as real) * st > (k' as real) * st
  {
  }

  /** From a larger start to a smaller end the lattice strictly decreases. */
  lemma LinspaceDecreasing(a: real, b: real, n: nat, k: nat, k': nat)
    requires a > b && k < k' < n
    ensures Linspace(a, b, n)[k] > Linspace(a, b, n)[k']
  {
    var st := Step(a, b, n);
    StepNegative(a, b, n);
    LinspaceAt(a, b, n, k);
    LinspaceAt(a, b, n, k');
    TimesNegativeStep(k, k', st);
  }

  /** Concatenation of the rows: node (i, j) of a grid whose rows have w
      entries lands at position i * w + j. */
  function Flatten<T>(g: seq<seq<T>>): seq<T>
  {
    if |g| == 0 then [] else Flatten(g[..|g| - 1]) + g[|g| - 1]
  }

  lemma {:induction false} FlattenLength<T>(g: seq<seq<T>>, w: nat)
    requires IsRect(g, w)
    ensures |Flatten(g)| == |g| * w
  {
    if |g| > 0 {
      var h := g[..|g| - 1];
      FlattenLength(h, w);
      assert |Flatten(g)| == (|g| - 1) * w + w;
    }
  }

  lemma RowOffset(i: nat, j: nat, w: nat, rows: nat)
    requires i < rows && j < w
    ensures i * w + j < rows * w
    ensures (rows - 1) * w <= i * w + j ==> i == rows - 1
  {
    if i < rows - 1 {
      assert (i + 1) * w <= (rows - 1) * w;
    }
  }

  /** Row-major placement: the flattened grid holds g[i][j] at i * w + j. */
  lemma {:induction false} FlattenAt<T>(g: seq<seq<T>>, w: nat, i: nat, j: nat)
    requires IsRect(g, w) && i < |g| && j < w
    ensures |Flatten(g)| == |g| * w
    ensures i * w + j < |Flatten(g)| && Flatten(g)[i * w + j] == g[i][j]
  {
    FlattenLength(g, w);
    var h := g[..|g| - 1];
    FlattenLength(h, w);
    RowOffset(i, j, w, |g|);
    if i < |g| - 1 {
      FlattenAt(h, w, i, j);
      RowOffset(i, j, w, |g| - 1);
    } else {
      assert i * w + j == (|g| - 1) * w + j;
    }
  }

  /** Every element of the flattened grid comes from some node. */
  lemma {:induction false} FlattenElement<T>(g: seq<seq<T>>, w: nat, k: nat) returns (i: nat, j: nat)
    requires IsRect(g, w) && k < |Flatten(g)|
    ensures i < |g| && j < w && i * w + j == k && Flatten(g)[k] == g[i][j]
  {
    FlattenLength(g, w);
    var h := g[..|g| - 1];
    FlattenLength(h, w);
    if k < |Flatten(h)| {
      i, j := FlattenElement(h, w, k);
    } else {
      i, j := |g| - 1, k - |Flatten(h)|;
    }
  }
}
