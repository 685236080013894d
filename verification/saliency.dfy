/**
  The arithmetic of Grad-CAM (gradcam_utils.py): channel weights as spatial
  means of the gradients, the ReLU of the weighted sum of activation maps, the
  input-gradient fallback map, and the min-shift/max-divide normalisation both
  paths end in.
*/
module Saliency {
  import opened Wrappers
  import opened Tensors

  // ---------------------------------------------------------------------------
  // Normalisation (`_normalize_cam`)
  // ---------------------------------------------------------------------------

  function Shifted(g: Grid, d: real): (r: Grid)
    ensures SameShape(r, g)
    ensures forall i, j :: InGrid(g, i, j) ==> r[i][j] == g[i][j] - d
  {
    seq(|g|, i requires 0 <= i < |g| => seq(|g[i]|, j requires 0 <= j < |g[i]| => g[i][j] - d))
  }

  function Divided(g: Grid, d: real): (r: Grid)
    requires d != 0.0
    ensures SameShape(r, g)
    ensures forall i, j :: InGrid(g, i, j) ==> r[i][j] == g[i][j] / d
  {
    seq(|g|, i requires 0 <= i < |g| => seq(|g[i]|, j requires 0 <= j < |g[i]| => g[i][j] / d))
  }

  lemma SameShapeNonEmpty(a: Grid, b: Grid)
    requires SameShape(a, b) && NonEmpty(b)
    ensures NonEmpty(a)
  {
  }

  /** A value that bounds every entry from above and is attained is the maximum. */
  lemma MaxIsUnique(g: Grid, m: real)
    requires NonEmpty(g) && UpperBound(g, m) && Attains(g, m)
    ensures GridMax(g) == m
  {
    GridMaxIsGreatest(g);
    var i, j :| InGrid(g, i, j) && g[i][j] == m;
    var i', j' :| InGrid(g, i', j') && g[i'][j'] == GridMax(g);
  }

  /** A value that bounds every entry from below and is attained is the minimum. */
  lemma MinIsUnique(g: Grid, m: real)
    requires NonEmpty(g) && LowerBound(g, m) && Attains(g, m)
    ensures GridMin(g) == m
  {
    GridMinIsLeast(g);
    var i, j :| InGrid(g, i, j) && g[i][j] == m;
    var i', j' :| InGrid(g, i', j') && g[i'][j'] == GridMin(g);
  }

  lemma EntryBetweenMinMax(g: Grid, i: int, j: int)
    requires NonEmpty(g) && InGrid(g, i, j)
    ensures GridMin(g) <= g[i][j] <= GridMax(g)
  {
    GridMinIsLeast(g);
    GridMaxIsGreatest(g);
  }

  /** Shifting by the minimum moves the maximum to max - min. */
  lemma ShiftedMax(g: Grid)
    requires NonEmpty(g)
    ensures NonEmpty(Shifted(g, GridMin(g)))
    ensures GridMax(Shifted(g, GridMin(g))) == GridMax(g) - GridMin(g)
  {
    var lo, hi := GridMin(g), GridMax(g);
    var s := Shifted(g, lo);
    SameShapeNonEmpty(s, g);
    GridMaxIsGreatest(g);
    var i, j :| InGrid(g, i, j) && g[i][j] == hi;
    assert InGrid(s, i, j) && s[i][j] == hi - lo;
    assert UpperBound(s, hi - lo);
    MaxIsUnique(s, hi - lo);
  }

  /** The map is constant: its maximum equals its minimum. */
  predicate Flat(g: Grid)
    requires NonEmpty(g)
  {
    GridMax(g) == GridMin(g)
  }

  /** The divide step of `_normalize_cam`: divide by `top` only when it is positive. */
  function DivideIfPositive(s: Grid, top: real): (r: Grid)
    ensures SameShape(r, s)
    ensures forall i, j :: InGrid(s, i, j) ==> r[i][j] == (if top > 0.0 then s[i][j] / top else s[i][j])
  {
    if top > 0.0 then Divided(s, top) else s
  }

  /** The affine map sending [lo, hi] onto [0, 1] (onto 0 when lo == hi). */
  function Affine(x: real, lo: real, hi: real): real {
    if hi > lo then (x - lo) / (hi - lo) else 0.0
  }

  lemma AffineRange(x: real, lo: real, hi: real)
    requires lo <= x <= hi
    ensures 0.0 <= Affine(x, lo, hi) <= 1.0
    ensures x == lo ==> Affine(x, lo, hi) == 0.0
    ensures x == hi && hi > lo ==> Affine(x, lo, hi) == 1.0
  {
    if hi > lo {
      UnitInterval(x - lo, hi - lo);
      if x == hi {
        DivideSelf(hi - lo);
      }
    }
  }

  lemma DivideSelf(d: real)
    requires d > 0.0
    ensures d / d == 1.0
  {
  }

  /** The affine rescaling keeps order, and reflects it when the interval is not a point. */
  lemma AffineMonotone(x: real, y: real, lo: real, hi: real)
    ensures x <= y ==> Affine(x, lo, hi) <= Affine(y, lo, hi)
    ensures hi > lo ==> (Affine(x, lo, hi) <= Affine(y, lo, hi) <==> x <= y)
  {
    if hi > lo {
      DivideMonotone(x - lo, y - lo, hi - lo);
    }
  }

  lemma UnitInterval(a: real, d: real)
    requires d > 0.0 && 0.0 <= a <= d
    ensures 0.0 <= a / d <= 1.0
  {
  }

  /** Entry by entry, shift by lo then divide by hi - lo if positive is the affine rescaling onto [0, 1]. */
  lemma RescaleEntry(g: Grid, lo: real, hi: real, top: real, i: int, j: int)
    requires InGrid(g, i, j) && lo <= g[i][j] <= hi && top == hi - lo
    ensures InGrid(DivideIfPositive(Shifted(g, lo), top), i, j)
    ensures DivideIfPositive(Shifted(g, lo), top)[i][j] == Affine(g[i][j], lo, hi)
  {
    var s := Shifted(g, lo);
    assert InGrid(s, i, j) && s[i][j] == g[i][j] - lo;
    var r := DivideIfPositive(s, top);
    assert r[i][j] == (if top > 0.0 then s[i][j] / top else s[i][j]);
    if hi > lo {
      assert r[i][j] == (g[i][j] - lo) / (hi - lo);
    } else {
      assert r[i][j] == 0.0;
    }
  }

  /**
    `_normalize_cam`: subtract the minimum, then divide by the new maximum if
    it is positive (NormalizeRange states what this achieves).
  */
  function Normalize(g: Grid): (n: Grid)
    requires NonEmpty(g)
    ensures SameShape(n, g) && NonEmpty(n)
  {
    var shifted := Shifted(g, GridMin(g));
    DivideIfPositive(shifted, GridMax(shifted))
  }

  lemma NormalizeUnfold(g: Grid)
    requires NonEmpty(g)
    ensures Normalize(g) == DivideIfPositive(Shifted(g, GridMin(g)), GridMax(g) - GridMin(g))
  {
    var s := Shifted(g, GridMin(g));
    assert Normalize(g) == DivideIfPositive(s, GridMax(s));
    ShiftedMax(g);
  }

  /**
    The normalised map as an independent formula: the affine rescaling
    (x - min) / (max - min) of each entry, or 0 when the map is constant.
  */
  lemma NormalizeIsAffine(g: Grid, i: int, j: int)
    requires NonEmpty(g) && InGrid(g, i, j)
    ensures Normalize(g)[i][j] == Affine(g[i][j], GridMin(g), GridMax(g))
  {
    var lo := GridMin(g);
    var s := Shifted(g, lo);
    ShiftedMax(g);
    EntryBetweenMinMax(g, i, j);
    RescaleEntry(g, lo, GridMax(g), GridMax(s), i, j);
  }

  /**
    Every normalised entry lies in [0, 1]; the minimum becomes exactly 0; a
    non-constant map reaches exactly 1; a constant map becomes all zeros (no
    division happens then).
  */
  lemma NormalizeRange(g: Grid)
    requires NonEmpty(g)
    ensures forall i, j :: InGrid(g, i, j) ==> 0.0 <= Normalize(g)[i][j] <= 1.0
    ensures exists i, j :: InGrid(g, i, j) && Normalize(g)[i][j] == 0.0
    ensures !Flat(g) ==> exists i, j :: InGrid(g, i, j) && Normalize(g)[i][j] == 1.0
    ensures Flat(g) ==> forall i, j :: InGrid(g, i, j) ==> Normalize(g)[i][j] == 0.0
  {
    var n, lo, hi := Normalize(g), GridMin(g), GridMax(g);
    forall i, j | InGrid(g, i, j)
      ensures 0.0 <= n[i][j] <= 1.0
      ensures Flat(g) ==> n[i][j] == 0.0
    {
      NormalizeIsAffine(g, i, j);
      EntryBetweenMinMax(g, i, j);
      AffineRange(g[i][j], lo, hi);
    }
    GridMinIsLeast(g);
    GridMaxIsGreatest(g);
    var i0, j0 :| InGrid(g, i0, j0) && g[i0][j0] == lo;
    NormalizeIsAffine(g, i0, j0);
    AffineRange(g[i0][j0], lo, hi);
    if !Flat(g) {
      var i1, j1 :| InGrid(g, i1, j1) && g[i1][j1] == hi;
      NormalizeIsAffine(g, i1, j1);
      AffineRange(g[i1][j1], lo, hi);
    }
  }

  /** NormalizeRange stated on the normalised map's own indices. */
  lemma NormalizedUnitRange(g: Grid)
    requires NonEmpty(g)
    ensures var n := Normalize(g);
      NonEmpty(n) &&
      (forall i, j :: InGrid(n, i, j) ==> 0.0 <= n[i][j] <= 1.0) &&
      (exists i, j :: InGrid(n, i, j) && n[i][j] == 0.0)
  {
    var n := Normalize(g);
    NormalizeRange(g);
    assert forall i, j :: InGrid(n, i, j) ==> InGrid(g, i, j);
    var i0, j0 :| InGrid(g, i0, j0) && n[i0][j0] == 0.0;
    assert InGrid(n, i0, j0);
  }

  /** Normalisation preserves the order of entries, in both directions when the map is not constant. */
  lemma NormalizeMonotone(g: Grid, i: int, j: int, k: int, l: int)
    requires NonEmpty(g) && InGrid(g, i, j) && InGrid(g, k, l)
    ensures g[i][j] <= g[k][l] ==> Normalize(g)[i][j] <= Normalize(g)[k][l]
    ensures !Flat(g) ==> (Normalize(g)[i][j] <= Normalize(g)[k][l] <==> g[i][j] <= g[k][l])
  {
    NormalizeIsAffine(g, i, j);
    NormalizeIsAffine(g, k, l);
    AffineMonotone(g[i][j], g[k][l], GridMin(g), GridMax(g));
  }

  lemma DivideMonotone(a: real, b: real, d: real)
    requires d > 0.0
    ensures a <= b <==> a / d <= b / d
  {
    if a <= b {
      assert b / d - a / d == (b - a) / d;
    } else {
      assert a / d - b / d == (a - b) / d;
    }
  }

  /** Normalising a normalised map changes nothing. */
  lemma NormalizeIdempotent(g: Grid)
    requires NonEmpty(g)
    ensures Normalize(Normalize(g)) == Normalize(g)
  {
    var n := Normalize(g);
    NormalizeRange(g);
    assert LowerBound(n, 0.0);
    MinIsUnique(n, 0.0);
    var top := if Flat(g) then 0.0 else 1.0;
    assert UpperBound(n, top);
    MaxIsUnique(n, top);
    var nn := Normalize(n);
    forall i, j | InGrid(n, i, j)
      ensures nn[i][j] == n[i][j]
    {
      NormalizeIsAffine(n, i, j);
    }
    GridExtensionality(nn, n);
  }

  lemma GridExtensionality(a: Grid, b: Grid)
    requires SameShape(a, b)
    requires forall i, j :: InGrid(a, i, j) ==> a[i][j] == b[i][j]
    ensures a == b
  {
    forall i | 0 <= i < |a|
      ensures a[i] == b[i]
    {
      assert forall j :: 0 <= j < |a[i]| ==> InGrid(a, i, j);
    }
  }

  /** `_normalize_cam` on a torch tensor: `min()` of an empty map raises. */
  function NormalizeCam(g: Grid): (r: Result<Grid, Fault>)
    ensures r.Ok? <==> NonEmpty(g)
    ensures r.Ok? ==> r.value == Normalize(g)
    ensures r.Err? ==> r.error == EmptyReduction
  {
    if NonEmpty(g) then Ok(Normalize(g)) else Err(EmptyReduction)
  }

  /** An H×W grid has an entry exactly when both H and W are positive. */
  lemma GridIsNonEmpty(g: Grid, h: nat, w: nat)
    requires IsGrid(g, h, w)
    ensures NonEmpty(g) <==> h > 0 && w > 0
  {
    if h > 0 && w == 0 {
      assert |g[0]| == 0;
    }
  }

  // ---------------------------------------------------------------------------
  // The Grad-CAM map (`generate_gradcam`)
  // ---------------------------------------------------------------------------

  /** `F.relu` on one value. */
  function Relu(x: real): real {
    if x > 0.0 then x else 0.0
  }

  /** A sum between n copies of lo and n copies of hi, divided by n, lies in [lo, hi]. */
  lemma DivBounds(sum: real, n: nat, lo: real, hi: real)
    requires n > 0
    requires Repeat(n, lo) <= sum <= Repeat(n, hi)
    ensures lo <= sum / n as real <= hi
  {
    RepeatIsProduct(n, lo);
    RepeatIsProduct(n, hi);
    ScaledBounds(sum, n as real, lo, hi);
  }

  lemma ScaledBounds(sum: real, count: real, lo: real, hi: real)
    requires count > 0.0
    requires count * lo <= sum <= count * hi
    ensures lo <= sum / count <= hi
  {
    assert (sum / count) * count == sum;
  }

  /**
    The weight of one channel: its gradient map averaged over all H×W
    positions (global average pooling, ChannelWeightIsMean).  A mean lies
    between the least and the greatest entry.
  */
  function ChannelWeight(g: Grid, h: nat, w: nat): (r: real)
    requires IsGrid(g, h, w) && h > 0 && w > 0
    ensures NonEmpty(g) && GridMin(g) <= r <= GridMax(g)
  {
    MeanFacts(g, h, w);
    GridSum(g) / Count(g) as real
  }

  /** The weight is the mean: as many copies of it as there are entries (H·W, by CountOfGrid) add up to their sum. */
  lemma ChannelWeightIsMean(g: Grid, h: nat, w: nat)
    requires IsGrid(g, h, w) && h > 0 && w > 0
    ensures GridSum(g) == Repeat(Count(g), ChannelWeight(g, h, w))
  {
    MeanFacts(g, h, w);
    var r := ChannelWeight(g, h, w);
    ScaleBack(r, GridSum(g), Count(g));
  }

  lemma ScaleBack(r: real, total: real, n: nat)
    requires n > 0 && r == total / n as real
    ensures Repeat(n, r) == total
  {
    RepeatIsProduct(n, r);
  }

  /** The facts ChannelWeight needs: a non-empty grid of H·W entries whose mean lies within its range. */
  lemma MeanFacts(g: Grid, h: nat, w: nat)
    requires IsGrid(g, h, w) && h > 0 && w > 0
    ensures NonEmpty(g) && Count(g) > 0
    ensures GridMin(g) <= GridSum(g) / Count(g) as real <= GridMax(g)
  {
    GridIsNonEmpty(g, h, w);
    CountOfGrid(g, h, w);
    ProductPositive(h, w);
    GridMinIsLeast(g);
    GridMaxIsGreatest(g);
    MeanOfBounded(g, GridMin(g), GridMax(g));
  }

  lemma ProductPositive(h: nat, w: nat)
    requires h > 0 && w > 0
    ensures h * w > 0
  {
  }

  /** The mean of a grid whose entries lie in [lo, hi] lies in [lo, hi]. */
  lemma MeanOfBounded(g: Grid, lo: real, hi: real)
    requires Count(g) > 0
    requires forall i, j :: InGrid(g, i, j) ==> lo <= g[i][j] <= hi
    ensures lo <= GridSum(g) / Count(g) as real <= hi
  {
    GridSumBounds(g, lo, hi);
    DivBounds(GridSum(g), Count(g), lo, hi);
  }

  /** A gradient map that is constant v everywhere has weight v. */
  lemma ChannelWeightOfConstant(g: Grid, h: nat, w: nat, v: real)
    requires IsGrid(g, h, w) && h > 0 && w > 0
    requires forall i, j :: InGrid(g, i, j) ==> g[i][j] == v
    ensures ChannelWeight(g, h, w) == v
  {
    assert InGrid(g, 0, 0);
    assert LowerBound(g, v) && UpperBound(g, v) && Attains(g, v);
    MinIsUnique(g, v);
    MaxIsUnique(g, v);
  }

  /** `torch.mean(gradients, dim=(2, 3))`: one weight per gradient channel. */
  function Weights(grads: Tensor): (ws: seq<real>)
    requires grads.Valid() && grads.height > 0 && grads.width > 0
    ensures |ws| == |grads.channels|
    ensures forall c :: 0 <= c < |ws| ==> ws[c] == ChannelWeight(grads.channels[c], grads.height, grads.width)
  {
    seq(|grads.channels|, c requires 0 <= c < |grads.channels| =>
      ChannelWeight(grads.channels[c], grads.height, grads.width))
  }

  /** The reference sum: sum over the first n channels c of weights[c] * acts[c][i][j]. */
  function WeightedSum(weights: seq<real>, acts: Tensor, n: nat, i: nat, j: nat): real
    requires acts.Valid() && n <= |weights| && n <= |acts.channels|
    requires i < acts.height && j < acts.width
  {
    if n == 0 then 0.0
    else WeightedSum(weights, acts, n - 1, i, j) + weights[n - 1] * acts.channels[n - 1][i][j]
  }

  function Zeros(h: nat, w: nat): (z: Grid)
    ensures IsGrid(z, h, w)
    ensures forall i, j :: InGrid(z, i, j) ==> z[i][j] == 0.0
  {
    seq(h, i => seq(w, j => 0.0))
  }

  /** `cam += k * a` on an H×W map. */
  function AddScaled(cam: Grid, k: real, a: Grid, h: nat, w: nat): (r: Grid)
    requires IsGrid(cam, h, w) && IsGrid(a, h, w)
    ensures IsGrid(r, h, w)
    ensures forall i, j :: InGrid(r, i, j) ==> r[i][j] == cam[i][j] + k * a[i][j]
  {
    seq(h, i requires 0 <= i < h => seq(w, j requires 0 <= j < w => cam[i][j] + k * a[i][j]))
  }

  /**
    The map after the first n turns of the accumulation loop: zeros of the
    activations' spatial shape, plus weights[c] times activation channel c for
    c = 0 .. n-1 in order.
  */
  function Accumulate(weights: seq<real>, acts: Tensor, n: nat): (cam: Grid)
    requires acts.Valid() && n <= |weights| && n <= |acts.channels|
    ensures IsGrid(cam, acts.height, acts.width)
    decreases n
  {
    if n == 0 then Zeros(acts.height, acts.width)
    else
      AddScaled(Accumulate(weights, acts, n - 1), weights[n - 1], acts.channels[n - 1],
                acts.height, acts.width)
  }

  /** Every entry of the accumulated map is the weighted sum of the activations at that position. */
  lemma {:induction false} AccumulateIsWeightedSum(weights: seq<real>, acts: Tensor, n: nat, i: nat, j: nat)
    requires acts.Valid() && n <= |weights| && n <= |acts.channels|
    requires i < acts.height && j < acts.width
    ensures Accumulate(weights, acts, n)[i][j] == WeightedSum(weights, acts, n, i, j)
    decreases n
  {
    if n > 0 {
      AccumulateIsWeightedSum(weights, acts, n - 1, i, j);
      var prev := Accumulate(weights, acts, n - 1);
      assert InGrid(prev, i, j);
    }
  }

  function ReluGrid(g: Grid): (r: Grid)
    ensures SameShape(r, g)
    ensures forall i, j :: InGrid(g, i, j) ==> r[i][j] == Relu(g[i][j])
  {
    seq(|g|, i requires 0 <= i < |g| => seq(|g[i]|, j requires 0 <= j < |g[i]| => Relu(g[i][j])))
  }

  /**
    The map before normalisation: ReLU of the sum over channels of the
    channel's weight times its activation map.  It has the activations'
    spatial shape and no negative entry.
  */
  function RawCam(acts: Tensor, grads: Tensor): (cam: Grid)
    requires acts.Valid() && grads.Valid() && grads.SameDims(acts)
    requires acts.height > 0 && acts.width > 0
    ensures IsGrid(cam, acts.height, acts.width)
    ensures forall i, j :: InGrid(cam, i, j) ==>
      cam[i][j] == Relu(WeightedSum(Weights(grads), acts, |acts.channels|, i, j)) && cam[i][j] >= 0.0
  {
    var ws := Weights(grads);
    var sum := Accumulate(ws, acts, |grads.channels|);
    var cam := ReluGrid(sum);
    forall i, j | InGrid(cam, i, j)
      ensures cam[i][j] == Relu(WeightedSum(ws, acts, |acts.channels|, i, j))
    {
      AccumulateIsWeightedSum(ws, acts, |grads.channels|, i, j);
      assert InGrid(sum, i, j);
    }
    cam
  }

  /**
    The primary path from captured tensors to the map: ReLU of the weighted
    activations, normalised by `NormalizeCam`.  An empty spatial shape has no
    channel means to weight with, and its map makes `min()` raise.
  */
  function BuildCam(acts: Tensor, grads: Tensor): (r: Result<Grid, Fault>)
    requires acts.Valid() && grads.Valid() && grads.SameDims(acts)
    ensures r.Ok? <==> acts.height > 0 && acts.width > 0
    ensures r.Ok? ==> IsGrid(r.value, acts.height, acts.width)
    ensures r.Ok? ==> r.value == Normalize(RawCam(acts, grads))
    ensures r.Err? ==> r.error == EmptyReduction
  {
    if acts.height == 0 || acts.width == 0 then Err(EmptyReduction)
    else
      var raw := RawCam(acts, grads);
      GridIsNonEmpty(raw, acts.height, acts.width);
      NormalizeCam(raw)
  }

  // ---------------------------------------------------------------------------
  // The fallback map (`_create_simple_gradient_map`)
  // ---------------------------------------------------------------------------

  function Abs(x: real): real {
    if x < 0.0 then -x else x
  }

  /** The largest |t[c][i][j]| over the first n channels. */
  function MaxAbsAt(t: Tensor, n: nat, i: nat, j: nat): (m: real)
    requires t.Valid() && 0 < n <= |t.channels| && i < t.height && j < t.width
    ensures m >= 0.0
    ensures forall c :: 0 <= c < n ==> Abs(t.channels[c][i][j]) <= m
    ensures exists c :: 0 <= c < n && Abs(t.channels[c][i][j]) == m
  {
    if n == 1 then Abs(t.channels[0][i][j])
    else Max(MaxAbsAt(t, n - 1, i, j), Abs(t.channels[n - 1][i][j]))
  }

  /**
    `torch.max(gradients.abs(), dim=0)`: per pixel, the largest absolute input
    gradient over the colour channels.  The map has the input's H×W, no
    negative entry, and each entry is the magnitude of one channel's gradient.
  */
  function InputGradientMap(t: Tensor): (m: Grid)
    requires t.Valid() && |t.channels| > 0
    ensures IsGrid(m, t.height, t.width)
    ensures forall i, j :: InGrid(m, i, j) ==> m[i][j] >= 0.0
    ensures forall i, j, c :: InGrid(m, i, j) && 0 <= c < |t.channels| ==> Abs(t.channels[c][i][j]) <= m[i][j]
    ensures forall i, j :: InGrid(m, i, j) ==> exists c :: 0 <= c < |t.channels| && Abs(t.channels[c][i][j]) == m[i][j]
  {
    seq(t.height, i requires 0 <= i < t.height =>
      seq(t.width, j requires 0 <= j < t.width => MaxAbsAt(t, |t.channels|, i, j)))
  }

  /**
    The fallback path: the input-gradient map, normalised.  A reduction over no
    channels, or a map with no entries, raises.
  */
  function SimpleGradientMap(inputGrad: Tensor): (r: Result<Grid, Fault>)
    requires inputGrad.Valid()
    ensures r.Ok? <==> |inputGrad.channels| > 0 && inputGrad.height > 0 && inputGrad.width > 0
    ensures r.Ok? ==> IsGrid(r.value, inputGrad.height, inputGrad.width)
    ensures r.Ok? ==> r.value == Normalize(InputGradientMap(inputGrad))
    ensures r.Err? ==> r.error == EmptyReduction
  {
    if |inputGrad.channels| == 0 then Err(EmptyReduction)
    else
      var m := InputGradientMap(inputGrad);
      GridIsNonEmpty(m, inputGrad.height, inputGrad.width);
      NormalizeCam(m)
  }
}
