/**
 * The prediction service: validate the upload's content type, classify the
 * picture, name the class, and, when asked, attach the Grad-CAM pictures,
 * degrading to the original picture alone when that fails.  The endpoint
 * then records where the PDF report went.
 */
module Inference {
  import opened Wrappers
  import opened Tensors
  import opened Base64
  import opened Text
  import opened Json
  import opened GradCam
  import Visualization
  import Report

  /** The label of a class: class 0 is the infected one. */
  function Label(classId: nat): (s: string)
    ensures s == "Infectado" <==> classId == 0
    ensures s == "No infectado" <==> classId != 0
  {
    if classId == 0 then "Infectado" else "No infectado"
  }

  /** An upload is refused when it declares a content type that is not an image type. */
  function ContentTypeAccepted(contentType: Option<string>): (ok: bool)
    ensures !ok <==> contentType.Some? && |contentType.value| > 0 && !StartsWith(contentType.value, "image/")
    ensures contentType.None? ==> ok
  {
    match contentType
    case None => true
    case Some(t) => |t| == 0 || StartsWith(t, "image/")
  }

  /** Every `image/...` type passes, and so does a missing or empty one; a text type does not. */
  lemma ImageTypesAccepted(subtype: string)
    ensures ContentTypeAccepted(Some("image/" + subtype))
    ensures ContentTypeAccepted(None) && ContentTypeAccepted(Some(""))
    ensures !ContentTypeAccepted(Some("text/plain"))
  {
    assert ("image/" + subtype)[..6] == "image/";
    assert "text/plain"[..6] != "image/" by { assert "text/plain"[0] == 't'; }
  }

  const BadRequest: int := 400

  /**
   * An uploaded picture as the service sees it: the PNG encoding of the
   * decoded RGB picture (None when the bytes are not a picture), the
   * classifier on its tensor, the confidence figure, and what rendering the
   * heatmap and overlay pictures of a map gives.
   */
  datatype Upload = Upload(
    picture: Option<seq<Byte>>,
    net: Network,
    confidence: real,
    render: Grid -> Option<Visualization.Rendered>)

  function Explanation(name: string): string {
    "Las áreas en rojo/amarillo muestran las regiones que más influyeron en la predicción '" + name + "'"
  }

  /** The keys of a bare prediction. */
  const PredictionKeys: set<string> := {"prediction", "confidence", "class_id"}

  /** The keys the Grad-CAM step may add. */
  const GradCamKeys: set<string> := {"original_image", "heatmap", "overlay", "explanation"}

  /** The Grad-CAM step never overwrites a prediction field. */
  lemma KeySetsDisjoint()
    ensures PredictionKeys !! GradCamKeys
  {
    forall a, b | a in PredictionKeys && b in GradCamKeys
      ensures a != b
    {
      assert |a| in {8, 10} && |b| in {7, 11, 14};
    }
  }

  /** The report path is added beside the prediction and Grad-CAM fields, never over one. */
  lemma PathKeyIsNew()
    ensures "pdf_path" !in PredictionKeys + GradCamKeys
  {
    assert |"pdf_path"| == 8 && "pdf_path"[0] == 'p';
  }

  /** The first class with the highest score: what the prediction reports. */
  predicate IsPredictedClass(scores: seq<real>, k: nat) {
    k < |scores| &&
    (forall j :: 0 <= j < |scores| ==> scores[j] <= scores[k]) &&
    (forall j :: 0 <= j < k ==> scores[j] < scores[k])
  }

  function PredictionFields(scores: seq<real>, confidence: real): (d: Dict)
    requires |scores| > 0
    ensures d.Keys == PredictionKeys
    ensures d["class_id"].Int? && d["class_id"].i >= 0 && IsPredictedClass(scores, d["class_id"].i)
    ensures d["prediction"] == Str(Label(d["class_id"].i))
    ensures d["confidence"] == Num(confidence)
  {
    var k := ArgMax(scores);
    map["prediction" := Str(Label(k)), "confidence" := Num(confidence), "class_id" := Int(k)]
  }

  /** The classifier's scores on an accepted picture, or the request's failure. */
  function Scores(up: Upload): (r: Result<seq<real>, int>)
    ensures r.Ok? <==> up.picture.Some? && up.net.scores.Some? && |up.net.scores.value| > 0
    ensures r.Ok? ==> r.value == up.net.scores.value
    ensures r.Err? ==> r.error == BadRequest
  {
    if up.picture.None? || up.net.scores.None? || |up.net.scores.value| == 0 then Err(BadRequest)
    else Ok(up.net.scores.value)
  }

  /**
   * The heatmap and overlay fields show the rendered pictures wrapped as
   * `data:` URLs, or are both None when rendering failed.
   */
  predicate ShowsPictures(d: Dict, pics: Option<Visualization.Rendered>) {
    "heatmap" in d && "overlay" in d &&
    (pics.None? ==> d["heatmap"] == Null && d["overlay"] == Null) &&
    (pics.Some? ==> d["heatmap"] == Str(Visualization.ImageToBase64(pics.value.heatmapPng)) &&
                    d["overlay"] == Str(Visualization.ImageToBase64(pics.value.overlayPng)))
  }

  /** The Grad-CAM fields for a map that was made: the visualisation record and the explanation. */
  function VisualFields(png: seq<Byte>, heatmap: Grid, render: Grid -> Option<Visualization.Rendered>, name: string): (d: Dict)
    requires NonEmpty(heatmap)
    ensures d.Keys == GradCamKeys
    ensures d["original_image"] == Str(Visualization.ImageToBase64(png))
    ensures d["explanation"] == Str(Explanation(name))
    ensures render(heatmap).None? <==> d["heatmap"] == Null
    ensures render(heatmap).None? <==> d["overlay"] == Null
    ensures ShowsPictures(d, render(heatmap))
  {
    var vis := Visualization.PrepareVisualization(png, heatmap, render).value;
    map["original_image" := vis["original"], "heatmap" := vis["heatmap"],
        "overlay" := vis["overlay"], "explanation" := Str(Explanation(name))]
  }

  /**
   * The fields added by the Grad-CAM step on top of a prediction for class
   * `k`: the visualisation record and an explanation on success, the
   * original picture alone when the map or the record cannot be made.
   */
  function GradCamFields(up: Upload, k: nat, name: string, hooks: Registry): (d: Dict)
    requires up.net.WellFormed() && hooks.Valid() && up.picture.Some?
    ensures "original_image" in d && d["original_image"] == Str(Visualization.ImageToBase64(up.picture.value))
    ensures d.Keys <= GradCamKeys
    ensures GenerateGradCam(up.net, Some(k), hooks).result.Err? ==> d.Keys == {"original_image"}
    ensures GenerateGradCam(up.net, Some(k), hooks).result.Ok? ==>
      d.Keys == GradCamKeys &&
      d["explanation"] == Str(Explanation(name)) &&
      var pics := up.render(GenerateGradCam(up.net, Some(k), hooks).result.value);
      (pics.None? <==> d["heatmap"] == Null) &&
      (pics.None? <==> d["overlay"] == Null) &&
      ShowsPictures(d, pics)
  {
    var png := up.picture.value;
    var fallback := map["original_image" := Str(Visualization.ImageToBase64(png))];
    match GenerateGradCam(up.net, Some(k), hooks).result
    case Err(_) => fallback
    case Ok(heatmap) =>
      ResultIsNormalised(up.net, Some(k), hooks);
      VisualFields(png, heatmap, up.render, name)
  }

  /**
   * `predict_image_from_bytes`.  An unreadable picture or a failing
   * classifier is a bad request; otherwise the prediction fields, and with
   * `includeGradcam` the Grad-CAM fields for the predicted class.
   */
  function PredictImageFromBytes(up: Upload, includeGradcam: bool, hooks: Registry): (r: Result<Dict, int>)
    requires up.net.WellFormed() && hooks.Valid()
    ensures r.Ok? <==> Scores(up).Ok?
    ensures r.Err? ==> r.error == BadRequest
    ensures r.Ok? ==> PredictionKeys <= r.value.Keys
    ensures r.Ok? ==>
      r.value["class_id"].Int? && r.value["class_id"].i >= 0 &&
      IsPredictedClass(Scores(up).value, r.value["class_id"].i)
    ensures r.Ok? ==> r.value["prediction"] == Str(Label(r.value["class_id"].i))
    ensures r.Ok? ==> r.value["confidence"] == Num(up.confidence)
    ensures r.Ok? && !includeGradcam ==> r.value.Keys == PredictionKeys
    ensures r.Ok? && includeGradcam ==>
      "original_image" in r.value && r.value.Keys <= PredictionKeys + GradCamKeys &&
      r.value["original_image"] == Str(Visualization.ImageToBase64(up.picture.value))
    ensures r.Ok? && includeGradcam && GenerateGradCam(up.net, Some(r.value["class_id"].i), hooks).result.Err? ==>
      r.value.Keys == PredictionKeys + {"original_image"}
    ensures r.Ok? && includeGradcam && GenerateGradCam(up.net, Some(r.value["class_id"].i), hooks).result.Ok? ==>
      r.value.Keys == PredictionKeys + GradCamKeys &&
      r.value["explanation"] == Str(Explanation(Label(r.value["class_id"].i))) &&
      ShowsPictures(r.value, up.render(GenerateGradCam(up.net, Some(r.value["class_id"].i), hooks).result.value))
  {
    var scores :- Scores(up);
    var fields := PredictionFields(scores, up.confidence);
    if !includeGradcam then Ok(fields)
    else
      var k := fields["class_id"].i;
      var extra := GradCamFields(up, k, Label(k), hooks);
      KeySetsDisjoint();
      Ok(fields + extra)
  }

  /**
   * The Grad-CAM step explains the predicted class: the fields it adds are
   * those of the pipeline asked for `class_id`, which is also what it
   * computes when asked for no class at all; the heatmap and overlay shown
   * are the pictures rendered from that map.
   */
  lemma GradCamExplainsPrediction(up: Upload, hooks: Registry)
    requires up.net.WellFormed() && hooks.Valid()
    requires PredictImageFromBytes(up, true, hooks).Ok?
    ensures var r := PredictImageFromBytes(up, true, hooks).value;
      r["class_id"].Int? && r["class_id"].i >= 0 &&
      ("heatmap" in r <==> GenerateGradCam(up.net, Some(r["class_id"].i), hooks).result.Ok?) &&
      GenerateGradCam(up.net, Some(r["class_id"].i), hooks).result == GenerateGradCam(up.net, None, hooks).result
    ensures var r := PredictImageFromBytes(up, true, hooks).value;
      var m := GenerateGradCam(up.net, None, hooks).result;
      ("heatmap" in r <==> m.Ok?) && (m.Ok? ==> ShowsPictures(r, up.render(m.value)))
  {
    var r := PredictImageFromBytes(up, true, hooks).value;
    HeatmapIffMapMade(up, hooks);
    ArgMaxUnique(Scores(up).value, r["class_id"].i);
    UnspecifiedTargetIsArgMax(up.net, hooks);
  }

  /** The heatmap field is present exactly when the map for `class_id` was made. */
  lemma HeatmapIffMapMade(up: Upload, hooks: Registry)
    requires up.net.WellFormed() && hooks.Valid()
    requires PredictImageFromBytes(up, true, hooks).Ok?
    ensures var r := PredictImageFromBytes(up, true, hooks).value;
      r["class_id"].Int? && r["class_id"].i >= 0 &&
      ("heatmap" in r <==> GenerateGradCam(up.net, Some(r["class_id"].i), hooks).result.Ok?)
  {
    var r := PredictImageFromBytes(up, true, hooks).value;
    if GenerateGradCam(up.net, Some(r["class_id"].i), hooks).result.Err? {
      NoHeatmapWithoutMap(r);
    }
  }

  /** A result holding only the prediction fields and the original picture has no heatmap. */
  lemma NoHeatmapWithoutMap(r: Dict)
    requires r.Keys == PredictionKeys + {"original_image"}
    ensures "heatmap" !in r
  {
    forall key | key in r.Keys
      ensures key != "heatmap"
    {
      assert |key| != |"heatmap"|;
    }
  }

  /** Asking for the Grad-CAM pictures never changes the prediction itself. */
  lemma PredictionUnaffectedByGradCam(up: Upload, hooks: Registry)
    requires up.net.WellFormed() && hooks.Valid()
    requires Scores(up).Ok?
    ensures forall key :: key in PredictionKeys ==>
      PredictImageFromBytes(up, true, hooks).value[key] == PredictImageFromBytes(up, false, hooks).value[key]
  {
    var scores := Scores(up).value;
    var with, without := PredictImageFromBytes(up, true, hooks).value, PredictImageFromBytes(up, false, hooks).value;
    ArgMaxUnique(scores, with["class_id"].i);
    ArgMaxUnique(scores, without["class_id"].i);
    forall key | key in PredictionKeys
      ensures with[key] == without[key]
    {
      assert key == "prediction" || key == "confidence" || key == "class_id";
    }
  }

  /**
   * `predict_malaria`.  A refused content type or an unreadable upload is a
   * bad request before anything runs; otherwise the prediction with the
   * Grad-CAM fields, plus the path of the PDF report (None when writing it
   * failed).
   */
  function PredictMalaria(contentType: Option<string>, readable: bool, up: Upload, filename: string,
                          env: Report.Environment, hooks: Registry): (r: Result<Dict, int>)
    requires up.net.WellFormed() && hooks.Valid()
    ensures !ContentTypeAccepted(contentType) ==> r == Err(BadRequest)
    ensures r.Ok? <==> ContentTypeAccepted(contentType) && readable && Scores(up).Ok?
    ensures r.Err? ==> r.error == BadRequest
    ensures r.Ok? ==> "pdf_path" in r.value && "original_image" in r.value && PredictionKeys <= r.value.Keys
    ensures r.Ok? ==> (r.value["pdf_path"] == Null <==> !env.written)
    ensures r.Ok? && env.written ==> r.value["pdf_path"] == Str(Report.ReportPath(env.stamp))
    ensures r.Ok? ==> PredictImageFromBytes(up, true, hooks).Ok?
    ensures r.Ok? ==> r.value == PredictImageFromBytes(up, true, hooks).value["pdf_path" := r.value["pdf_path"]]
    ensures r.Ok? ==> r.value.Keys == PredictImageFromBytes(up, true, hooks).value.Keys + {"pdf_path"}
  {
    if !ContentTypeAccepted(contentType) || !readable then Err(BadRequest)
    else
      var result :- PredictImageFromBytes(up, true, hooks);
      Ok(WithReportPath(result, Report.GeneratePdf(result, filename, env)))
  }

  /** `result["pdf_path"] = pdf_path`: the path of a written report, or None. */
  function WithReportPath(result: Dict, saved: Option<Report.Saved>): (d: Dict)
    ensures d.Keys == result.Keys + {"pdf_path"}
    ensures d == result["pdf_path" := d["pdf_path"]]
    ensures saved.None? <==> d["pdf_path"] == Null
    ensures saved.Some? ==> d["pdf_path"] == Str(saved.value.path)
  {
    result["pdf_path" := if saved.Some? then Str(saved.value.path) else Null]
  }
}
