/**
  Real-valued tensors with the batch axis dropped (the pipeline always runs on
  a batch of one): a `Grid` is an H×W map, a `Tensor` is C such maps of a
  common H×W.  Also the reductions the source takes from torch: min, max, sum
  and the first-maximum `argmax`.
*/
module Tensors {

  type Grid = seq<seq<real>>

  /** The errors torch raises in the modelled steps. */
  datatype Fault =
    | EmptyReduction       // min/max/argmax of a tensor with no elements
    | IndexOutOfRange      // indexing past the end of a tensor, list or module container
    | EvaluationFailed     // the classifier's forward pass raised
    | NotIndexable         // indexing a value that is not a container (TypeError)

  /** `g` is rectangular with `h` rows of `w` entries. */
  predicate IsGrid(g: Grid, h: nat, w: nat) {
    |g| == h && forall i :: 0 <= i < |g| ==> |g[i]| == w
  }

  /** Every row of `g` and `g` itself are non-empty, so min and max exist. */
  predicate NonEmpty(g: Grid) {
    |g| > 0 && forall i :: 0 <= i < |g| ==> |g[i]| > 0
  }

  predicate InGrid(g: Grid, i: int, j: int) {
    0 <= i < |g| && 0 <= j < |g[i]|
  }

  /** Two grids have the same row count and the same length row by row. */
  predicate SameShape(a: Grid, b: Grid) {
    |a| == |b| && forall i :: 0 <= i < |a| ==> |a[i]| == |b[i]|
  }

  /** C channels, each an H×W grid. */
  datatype Tensor = Tensor(height: nat, width: nat, channels: seq<Grid>) {
    predicate Valid() {
      forall c :: 0 <= c < |channels| ==> IsGrid(channels[c], height, width)
    }

    predicate SameDims(other: Tensor) {
      height == other.height && width == other.width && |channels| == |other.channels|
    }
  }

  function Min(a: real, b: real): real { if a <= b then a else b }
  function Max(a: real, b: real): real { if a >= b then a else b }

  function SeqMin(s: seq<real>): (m: real)
    requires |s| > 0
    ensures forall k :: 0 <= k < |s| ==> m <= s[k]
    ensures exists k :: 0 <= k < |s| && s[k] == m
  {
    if |s| == 1 then s[0]
    else
      var m := Min(s[0], SeqMin(s[1..]));
      assert forall k :: 1 <= k < |s| ==> s[k] == s[1..][k - 1];
      m
  }

  function SeqMax(s: seq<real>): (m: real)
    requires |s| > 0
    ensures forall k :: 0 <= k < |s| ==> s[k] <= m
    ensures exists k :: 0 <= k < |s| && s[k] == m
  {
    if |s| == 1 then s[0]
    else
      var m := Max(s[0], SeqMax(s[1..]));
      assert forall k :: 1 <= k < |s| ==> s[k] == s[1..][k - 1];
      m
  }

  /** `tensor.min()`: the least entry of the grid (GridMinIsLeast). */
  function GridMin(g: Grid): real
    requires NonEmpty(g)
  {
    if |g| == 1 then SeqMin(g[0]) else Min(SeqMin(g[0]), GridMin(g[1..]))
  }

  /** `tensor.max()`: the greatest entry of the grid (GridMaxIsGreatest). */
  function GridMax(g: Grid): real
    requires NonEmpty(g)
  {
    if |g| == 1 then SeqMax(g[0]) else Max(SeqMax(g[0]), GridMax(g[1..]))
  }

  ghost predicate LowerBound(g: Grid, m: real) {
    forall i, j :: InGrid(g, i, j) ==> m <= g[i][j]
  }

  ghost predicate UpperBound(g: Grid, m: real) {
    forall i, j :: InGrid(g, i, j) ==> g[i][j] <= m
  }

  ghost predicate Attains(g: Grid, m: real) {
    exists i, j :: InGrid(g, i, j) && g[i][j] == m
  }

  /** GridMin bounds every entry from below and is itself an entry. */
  lemma {:induction false} GridMinIsLeast(g: Grid)
    requires NonEmpty(g)
    ensures LowerBound(g, GridMin(g)) && Attains(g, GridMin(g))
  {
    if |g| > 1 {
      GridMinIsLeast(g[1..]);
      assert forall i :: 1 <= i < |g| ==> g[i] == g[1..][i - 1];
      var i, j :| InGrid(g[1..], i, j) && g[1..][i][j] == GridMin(g[1..]);
      assert InGrid(g, i + 1, j);
      var j0 :| 0 <= j0 < |g[0]| && g[0][j0] == SeqMin(g[0]);
      assert InGrid(g, 0, j0);
    } else {
      var j0 :| 0 <= j0 < |g[0]| && g[0][j0] == SeqMin(g[0]);
      assert InGrid(g, 0, j0);
    }
  }

  /** GridMax bounds every entry from above and is itself an entry. */
  lemma {:induction false} GridMaxIsGreatest(g: Grid)
    requires NonEmpty(g)
    ensures UpperBound(g, GridMax(g)) && Attains(g, GridMax(g))
  {
    if |g| > 1 {
      GridMaxIsGreatest(g[1..]);
      assert forall i :: 1 <= i < |g| ==> g[i] == g[1..][i - 1];
      var i, j :| InGrid(g[1..], i, j) && g[1..][i][j] == GridMax(g[1..]);
      assert InGrid(g, i + 1, j);
      var j0 :| 0 <= j0 < |g[0]| && g[0][j0] == SeqMax(g[0]);
      assert InGrid(g, 0, j0);
    } else {
      var j0 :| 0 <= j0 < |g[0]| && g[0][j0] == SeqMax(g[0]);
      assert InGrid(g, 0, j0);
    }
  }

  function SeqSum(s: seq<real>): real {
    if |s| == 0 then 0.0 else s[0] + SeqSum(s[1..])
  }

  function GridSum(g: Grid): real {
    if |g| == 0 then 0.0 else SeqSum(g[0]) + GridSum(g[1..])
  }

  /** Number of entries of a grid. */
  function Count(g: Grid): nat {
    if |g| == 0 then 0 else |g[0]| + Count(g[1..])
  }

  lemma {:induction false} CountOfGrid(g: Grid, h: nat, w: nat)
    requires IsGrid(g, h, w)
    ensures Count(g) == h * w
    decreases h
  {
    if h > 0 {
      CountOfGrid(g[1..], h - 1, w);
    }
  }

  /** x added to itself n times: n·x without a product of two unknowns. */
  function Repeat(n: nat, x: real): real {
    if n == 0 then 0.0 else x + Repeat(n - 1, x)
  }

  lemma {:induction false} RepeatAdd(a: nat, b: nat, x: real)
    ensures Repeat(a + b, x) == Repeat(a, x) + Repeat(b, x)
    decreases a
  {
    if a > 0 {
      RepeatAdd(a - 1, b, x);
    }
  }

  lemma {:induction false} RepeatIsProduct(n: nat, x: real)
    ensures Repeat(n, x) == n as real * x
  {
    if n > 0 {
      RepeatIsProduct(n - 1, x);
      assert n as real * x == (n - 1) as real * x + x;
    }
  }

  /** A sum of entries that all lie in [lo, hi] lies between |s| copies of lo and of hi. */
  lemma {:induction false} SeqSumBounds(s: seq<real>, lo: real, hi: real)
    requires forall k :: 0 <= k < |s| ==> lo <= s[k] <= hi
    ensures Repeat(|s|, lo) <= SeqSum(s) <= Repeat(|s|, hi)
  {
    if |s| > 0 {
      SeqSumBounds(s[1..], lo, hi);
    }
  }

  /** The rows of a grid whose entries lie in [lo, hi] have their entries in [lo, hi]. */
  lemma RowsInRange(g: Grid, lo: real, hi: real)
    requires |g| > 0
    requires forall i, j :: InGrid(g, i, j) ==> lo <= g[i][j] <= hi
    ensures forall j :: 0 <= j < |g[0]| ==> lo <= g[0][j] <= hi
    ensures forall i, j :: InGrid(g[1..], i, j) ==> lo <= g[1..][i][j] <= hi
  {
    forall i, j | InGrid(g[1..], i, j)
      ensures lo <= g[1..][i][j] <= hi
    {
      assert InGrid(g, i + 1, j);
    }
    forall j | 0 <= j < |g[0]|
      ensures lo <= g[0][j] <= hi
    {
      assert InGrid(g, 0, j);
    }
  }

  lemma {:induction false} GridSumBounds(g: Grid, lo: real, hi: real)
    requires forall i, j :: InGrid(g, i, j) ==> lo <= g[i][j] <= hi
    ensures Repeat(Count(g), lo) <= GridSum(g) <= Repeat(Count(g), hi)
  {
    if |g| > 0 {
      RowsInRange(g, lo, hi);
      SeqSumBounds(g[0], lo, hi);
      GridSumBounds(g[1..], lo, hi);
      RepeatAdd(|g[0]|, Count(g[1..]), lo);
      RepeatAdd(|g[0]|, Count(g[1..]), hi);
    }
  }

  /** Search for the first maximal entry, `best` being the first maximum of `s[..i]`. */
  function ArgMaxFrom(s: seq<real>, i: nat, best: nat): (k: nat)
    requires best < i <= |s|
    requires forall j :: 0 <= j < i ==> s[j] <= s[best]
    requires forall j :: 0 <= j < best ==> s[j] < s[best]
    ensures k < |s|
    ensures forall j :: 0 <= j < |s| ==> s[j] <= s[k]
    ensures forall j :: 0 <= j < k ==> s[j] < s[k]
    decreases |s| - i
  {
    if i == |s| then best
    else if s[i] > s[best] then ArgMaxFrom(s, i + 1, i)
    else ArgMaxFrom(s, i + 1, best)
  }

  /**
    `torch.argmax` over one row of scores: an index of a maximal score, the
    first one when several scores tie.
  */
  function ArgMax(s: seq<real>): (k: nat)
    requires |s| > 0
    ensures k < |s|
    ensures forall j :: 0 <= j < |s| ==> s[j] <= s[k]
    ensures forall j :: 0 <= j < k ==> s[j] < s[k]
  {
    ArgMaxFrom(s, 1, 0)
  }

  /** The first maximal index is unique: any index with both properties is ArgMax. */
  lemma ArgMaxUnique(s: seq<real>, k: nat)
    requires k < |s|
    requires forall j :: 0 <= j < |s| ==> s[j] <= s[k]
    requires forall j :: 0 <= j < k ==> s[j] < s[k]
    ensures ArgMax(s) == k
  {
  }
}
