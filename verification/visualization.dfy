/**
 * Packaging of a Grad-CAM map for display: quantisation to 8-bit grey
 * levels, nearest-neighbour resizing, the convex blend of the overlay, the
 * `data:` URL wrapping of PNG bytes, and the dictionary handed back to the
 * caller, which degrades to the original image alone when rendering fails.
 *
 * PNG encoding, the colour tables and the bilinear resize of the overlay
 * are library internals; their results enter as opaque bytes.
 */
module Visualization {
  import opened Wrappers
  import opened Tensors
  import opened Base64
  import opened Text
  import opened Json

  // ---------------------------------------------------------------------------
  // Quantisation
  // ---------------------------------------------------------------------------

  /** `(h * 255).astype(np.uint8)` for a value of a normalised map: truncation of h·255. */
  function Quantize(h: real): (q: int)
    requires 0.0 <= h <= 1.0
    ensures 0 <= q <= 255
    ensures q as real <= h * 255.0 < q as real + 1.0
  {
    (h * 255.0).Floor
  }

  /** Quantisation keeps the order of grey levels. */
  lemma QuantizeMonotone(a: real, b: real)
    requires 0.0 <= a <= b <= 1.0
    ensures Quantize(a) <= Quantize(b)
  {
    var qa, qb := Quantize(a), Quantize(b);
    assert qa as real <= a * 255.0 <= b * 255.0 < qb as real + 1.0;
  }

  /** Black stays black and full intensity becomes 255. */
  lemma QuantizeEnds()
    ensures Quantize(0.0) == 0 && Quantize(1.0) == 255
  {
  }

  ghost predicate InUnitRange(g: Grid) {
    forall i, j :: InGrid(g, i, j) ==> 0.0 <= g[i][j] <= 1.0
  }

  function QuantizeGrid(g: Grid): (q: seq<seq<int>>)
    requires InUnitRange(g)
    ensures |q| == |g| && forall i :: 0 <= i < |g| ==> |q[i]| == |g[i]|
    ensures forall i, j :: InGrid(g, i, j) ==> q[i][j] == Quantize(g[i][j]) && 0 <= q[i][j] <= 255
  {
    seq(|g|, i requires 0 <= i < |g| =>
      seq(|g[i]|, j requires 0 <= j < |g[i]| => Quantize(g[i][j])))
  }

  // ---------------------------------------------------------------------------
  // Nearest-neighbour resize
  // ---------------------------------------------------------------------------

  /** An image size as (width, height), the order the imaging library uses. */
  datatype Size = Size(width: nat, height: nat)

  const DefaultSize := Size(224, 224)

  /** Source coordinate sampled for target coordinate x: the pixel under the centre of x. */
  function NearestIndex(x: nat, src: nat, dst: nat): (k: nat)
    requires src > 0 && x < dst
    ensures k < src
    ensures k * 2 * dst <= (2 * x + 1) * src < (k + 1) * 2 * dst
  {
    NearestInRange(x, src, dst);
    ((2 * x + 1) * src) / (2 * dst)
  }

  lemma NearestInRange(x: nat, src: nat, dst: nat)
    requires src > 0 && x < dst
    ensures ((2 * x + 1) * src) / (2 * dst) < src
  {
    var k := ((2 * x + 1) * src) / (2 * dst);
    MulStrict(2 * x + 1, 2 * dst, src);
    assert k * (2 * dst) <= (2 * x + 1) * src;
    MulCancel(k, src, 2 * dst);
  }

  lemma MulStrict(a: nat, b: nat, c: nat)
    requires a < b && c > 0
    ensures a * c < b * c
  {
  }

  lemma MulCancel(a: int, b: int, c: int)
    requires c > 0 && a * c < b * c
    ensures a < b
  {
  }

  /** Euclidean division has a unique quotient. */
  lemma DivUnique(a: nat, d: nat, q: nat, r: nat)
    requires d > 0 && a == q * d + r && r < d
    ensures a / d == q
  {
    var t := q - a / d;
    assert t * d == a % d - r;
    MulCancel(t, 1, d);
    MulCancel(-1, t, d);
  }

  /** Sampling a size onto itself picks every pixel itself. */
  lemma NearestIndexIdentity(x: nat, n: nat)
    requires x < n
    ensures NearestIndex(x, n, n) == x
  {
    assert (2 * x + 1) * n == x * (2 * n) + n;
    DivUnique((2 * x + 1) * n, 2 * n, x, n);
  }

  /** `Image.resize(size, Image.NEAREST)` of an h×w picture. */
  function ResizeNearest<T>(img: seq<seq<T>>, h: nat, w: nat, size: Size): (r: seq<seq<T>>)
    requires h > 0 && w > 0 && |img| == h && forall i :: 0 <= i < h ==> |img[i]| == w
    ensures |r| == size.height && forall i :: 0 <= i < |r| ==> |r[i]| == size.width
    ensures forall i, j :: 0 <= i < size.height && 0 <= j < size.width ==>
      r[i][j] == img[NearestIndex(i, h, size.height)][NearestIndex(j, w, size.width)]
  {
    seq(size.height, i requires 0 <= i < size.height =>
      seq(size.width, j requires 0 <= j < size.width =>
        img[NearestIndex(i, h, size.height)][NearestIndex(j, w, size.width)]))
  }

  /** Resizing a picture to its own size leaves it unchanged. */
  lemma ResizeToOwnSize<T>(img: seq<seq<T>>, h: nat, w: nat)
    requires h > 0 && w > 0 && |img| == h && forall i :: 0 <= i < h ==> |img[i]| == w
    ensures ResizeNearest(img, h, w, Size(w, h)) == img
  {
    var r := ResizeNearest(img, h, w, Size(w, h));
    forall i | 0 <= i < h
      ensures r[i] == img[i]
    {
      NearestIndexIdentity(i, h);
      forall j | 0 <= j < w
        ensures r[i][j] == img[i][j]
      {
        NearestIndexIdentity(j, w);
      }
    }
  }

  /**
   * The grey-level picture of `heatmap_to_image`, before the colour table:
   * the quantised map resized to `size`.  Every pixel is the grey level of
   * some entry of the map.
   */
  function HeatmapToGray(heatmap: Grid, h: nat, w: nat, size: Size): (img: seq<seq<int>>)
    requires IsGrid(heatmap, h, w) && h > 0 && w > 0 && InUnitRange(heatmap)
    ensures |img| == size.height && forall i :: 0 <= i < |img| ==> |img[i]| == size.width
    ensures forall i, j :: 0 <= i < size.height && 0 <= j < size.width ==>
      0 <= img[i][j] <= 255 &&
      exists a, b :: InGrid(heatmap, a, b) && img[i][j] == Quantize(heatmap[a][b])
  {
    var q := QuantizeGrid(heatmap);
    var img := ResizeNearest(q, h, w, size);
    forall i, j | 0 <= i < size.height && 0 <= j < size.width
      ensures 0 <= img[i][j] <= 255
      ensures exists a, b :: InGrid(heatmap, a, b) && img[i][j] == Quantize(heatmap[a][b])
    {
      var a, b := NearestIndex(i, h, size.height), NearestIndex(j, w, size.width);
      assert InGrid(heatmap, a, b);
    }
    img
  }

  /**
   * With the default size the heatmap picture is 224 by 224 whatever the
   * shape of the map, and a 224 by 224 map is only re-quantised.
   */
  lemma DefaultHeatmapSize(heatmap: Grid, h: nat, w: nat)
    requires IsGrid(heatmap, h, w) && h > 0 && w > 0 && InUnitRange(heatmap)
    ensures |HeatmapToGray(heatmap, h, w, DefaultSize)| == 224
    ensures forall i :: 0 <= i < 224 ==> |HeatmapToGray(heatmap, h, w, DefaultSize)[i]| == 224
    ensures h == 224 && w == 224 ==> HeatmapToGray(heatmap, h, w, DefaultSize) == QuantizeGrid(heatmap)
  {
    if h == 224 && w == 224 {
      ResizeToOwnSize(QuantizeGrid(heatmap), h, w);
    }
  }

  // ---------------------------------------------------------------------------
  // Blend
  // ---------------------------------------------------------------------------

  /** Weight of the coloured heatmap in the overlay; the original keeps the rest. */
  const DefaultAlpha: real := 0.4

  datatype Rgb = Rgb(red: real, green: real, blue: real)

  /** One channel of `addWeighted(original, 1 - alpha, heat, alpha, 0)`. */
  function BlendValue(o: real, h: real, alpha: real): real {
    (1.0 - alpha) * o + alpha * h
  }

  /** With 0 <= alpha <= 1 the blended value lies between the two it mixes. */
  lemma BlendBetween(o: real, h: real, alpha: real)
    requires 0.0 <= alpha <= 1.0
    ensures Min(o, h) <= BlendValue(o, h, alpha) <= Max(o, h)
  {
    var lo, hi := Min(o, h), Max(o, h);
    var v := BlendValue(o, h, alpha);
    ScaleNonNeg(1.0 - alpha, o - lo);
    ScaleNonNeg(alpha, h - lo);
    ScaleNonNeg(1.0 - alpha, hi - o);
    ScaleNonNeg(alpha, hi - h);
    assert v - lo == (1.0 - alpha) * (o - lo) + alpha * (h - lo);
    assert hi - v == (1.0 - alpha) * (hi - o) + alpha * (hi - h);
  }

  /** With the default weight the overlay stays nearer the original than the heatmap. */
  lemma DefaultBlendFavoursOriginal(o: real, h: real)
    ensures Min(o, h) <= BlendValue(o, h, DefaultAlpha) <= Max(o, h)
    ensures o <= h ==> BlendValue(o, h, DefaultAlpha) - o <= h - BlendValue(o, h, DefaultAlpha)
    ensures h <= o ==> o - BlendValue(o, h, DefaultAlpha) <= BlendValue(o, h, DefaultAlpha) - h
  {
    BlendBetween(o, h, DefaultAlpha);
  }

  lemma ScaleNonNeg(a: real, b: real)
    requires a >= 0.0 && b >= 0.0
    ensures a * b >= 0.0
  {
  }

  function BlendPixel(o: Rgb, h: Rgb, alpha: real): (p: Rgb)
    requires 0.0 <= alpha <= 1.0
    ensures Min(o.red, h.red) <= p.red <= Max(o.red, h.red)
    ensures Min(o.green, h.green) <= p.green <= Max(o.green, h.green)
    ensures Min(o.blue, h.blue) <= p.blue <= Max(o.blue, h.blue)
  {
    BlendBetween(o.red, h.red, alpha);
    BlendBetween(o.green, h.green, alpha);
    BlendBetween(o.blue, h.blue, alpha);
    Rgb(BlendValue(o.red, h.red, alpha), BlendValue(o.green, h.green, alpha),
        BlendValue(o.blue, h.blue, alpha))
  }

  predicate InByteRange(p: Rgb) {
    0.0 <= p.red <= 255.0 && 0.0 <= p.green <= 255.0 && 0.0 <= p.blue <= 255.0
  }

  /**
   * The overlay: the original picture blended with the coloured heatmap of
   * the same size.  Pixels of two 8-bit pictures blend to an 8-bit pixel.
   */
  function Overlay(original: seq<seq<Rgb>>, colored: seq<seq<Rgb>>, alpha: real): (r: seq<seq<Rgb>>)
    requires 0.0 <= alpha <= 1.0
    requires |original| == |colored| && forall i :: 0 <= i < |original| ==> |original[i]| == |colored[i]|
    ensures |r| == |original| && forall i :: 0 <= i < |r| ==> |r[i]| == |original[i]|
    ensures forall i, j :: 0 <= i < |r| && 0 <= j < |r[i]| ==> r[i][j] == BlendPixel(original[i][j], colored[i][j], alpha)
    ensures forall i, j :: 0 <= i < |r| && 0 <= j < |r[i]| && InByteRange(original[i][j]) && InByteRange(colored[i][j]) ==>
      InByteRange(r[i][j])
  {
    seq(|original|, i requires 0 <= i < |original| =>
      seq(|original[i]|, j requires 0 <= j < |original[i]| => BlendPixel(original[i][j], colored[i][j], alpha)))
  }

  /** Weight 0 gives back the original picture and weight 1 the coloured heatmap. */
  lemma OverlayExtremes(original: seq<seq<Rgb>>, colored: seq<seq<Rgb>>)
    requires |original| == |colored| && forall i :: 0 <= i < |original| ==> |original[i]| == |colored[i]|
    ensures Overlay(original, colored, 0.0) == original
    ensures Overlay(original, colored, 1.0) == colored
  {
    var zero, one := Overlay(original, colored, 0.0), Overlay(original, colored, 1.0);
    forall i | 0 <= i < |original|
      ensures zero[i] == original[i] && one[i] == colored[i]
    {
      forall j | 0 <= j < |original[i]|
        ensures zero[i][j] == original[i][j] && one[i][j] == colored[i][j]
      {
        BlendExtremes(original[i][j], colored[i][j]);
      }
    }
  }

  /** The two extreme weights give back one of the two pictures' pixels. */
  lemma BlendExtremes(o: Rgb, h: Rgb)
    ensures BlendPixel(o, h, 0.0) == o && BlendPixel(o, h, 1.0) == h
  {
  }

  // ---------------------------------------------------------------------------
  // `data:` URL wrapping
  // ---------------------------------------------------------------------------

  const Prefix: string := "data:image/png;base64,"

  /** `image_to_base64` of a picture whose PNG encoding is `png`. */
  function ImageToBase64(png: seq<Byte>): (url: string)
    ensures StartsWith(url, Prefix)
    ensures Decode(url[|Prefix|..]) == Some(png)
    ensures forall k :: |Prefix| <= k < |url| ==> url[k] != ','
  {
    DecodeEncode(png);
    var url := Prefix + Encode(png);
    assert url[|Prefix|..] == Encode(png);
    url
  }

  /** The URL splits on ',' into the media-type header and exactly the Base64 of the bytes. */
  lemma WrappedSplits(png: seq<Byte>)
    ensures Split(ImageToBase64(png), ',') == ["data:image/png;base64", Encode(png)]
    ensures Segment(ImageToBase64(png), ',', 1) == Some(Encode(png))
  {
    var head := "data:image/png;base64";
    assert Prefix == head + [','];
    assert ImageToBase64(png) == head + [','] + Encode(png);
    assert ',' !in head;
    SplitOnce(head, ',', Encode(png));
  }

  // ---------------------------------------------------------------------------
  // The visualisation record
  // ---------------------------------------------------------------------------

  /** PNG encodings of the rendered heatmap and overlay pictures. */
  datatype Rendered = Rendered(heatmapPng: seq<Byte>, overlayPng: seq<Byte>)

  /**
   * `prepare_visualization_data`.  `render` gives what the overlay and
   * heatmap steps produce from the map, None when one of them raises.  Printing the
   * map's minimum and maximum happens before the guarded block, so a map
   * with no entries raises out of the function.
   */
  function PrepareVisualization(originalPng: seq<Byte>, heatmap: Grid, render: Grid -> Option<Rendered>): (r: Result<Dict, Fault>)
    ensures r.Ok? <==> NonEmpty(heatmap)
    ensures r.Err? ==> r.error == EmptyReduction
    ensures r.Ok? ==> r.value.Keys == {"original", "heatmap", "overlay"}
    ensures r.Ok? ==> r.value["original"] == Str(ImageToBase64(originalPng))
    ensures r.Ok? ==> (render(heatmap).None? <==> r.value["heatmap"] == Null)
    ensures r.Ok? ==> (render(heatmap).None? <==> r.value["overlay"] == Null)
    ensures r.Ok? && render(heatmap).Some? ==>
      r.value["heatmap"] == Str(ImageToBase64(render(heatmap).value.heatmapPng)) &&
      r.value["overlay"] == Str(ImageToBase64(render(heatmap).value.overlayPng))
  {
    if !NonEmpty(heatmap) then Err(EmptyReduction)
    else
      var original := Str(ImageToBase64(originalPng));
      match render(heatmap)
      case Some(pics) =>
        Ok(map["original" := original,
               "heatmap" := Str(ImageToBase64(pics.heatmapPng)),
               "overlay" := Str(ImageToBase64(pics.overlayPng))])
      case None =>
        Ok(map["original" := original, "heatmap" := Null, "overlay" := Null])
  }

  /** Rendering success or failure does not change the `original` field. */
  lemma OriginalIndependentOfRendering(originalPng: seq<Byte>, heatmap: Grid, a: Grid -> Option<Rendered>, b: Grid -> Option<Rendered>)
    requires NonEmpty(heatmap)
    ensures PrepareVisualization(originalPng, heatmap, a).value["original"] ==
            PrepareVisualization(originalPng, heatmap, b).value["original"]
  {
  }
}
