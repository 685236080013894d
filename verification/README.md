# Grad-CAM explanation pipeline of the malaria classifier, in Dafny

This project models the explainability core of the malaria blood-cell
classifier service, together with the pure rules that package its result
and unpack it again:

- **TargetLayer** (`targetlayer.dfy`): `_find_target_layer` over a tree of
  named modules. A `features` block wins over a `layer4` block. Failing both,
  the last `Conv2d` in pre-order (the order of `named_modules`) is chosen,
  or none at all.
- **Tensors** (`tensors.dfy`): grids (`seq<seq<real>>`), tensors with the batch
  axis dropped, and the torch reductions the code uses: `min`, `max`, `sum`
  and the first-maximum `argmax`.
- **Saliency** (`saliency.dfy`): the CAM arithmetic of `generate_gradcam`
  (channel weights as spatial means, the weighted sum, ReLU), the
  input-gradient fallback of `_create_simple_gradient_map` (per-pixel maximum
  of `|grad|` over channels), and `_normalize_cam`.
- **GradCam** (`gradcam.dfy`): `generate_gradcam` as a whole. The classifier's
  scores, captured activations and gradients are inputs. The forward and
  backward hooks are an explicit registry of live handles; both are removed
  on every exit path.
- **Base64** (`base64.dfy`) and **Text** (`text.dfy`): section 4 of RFC 4648
  (standard alphabet, `=` padding), and Python's `str.split` with indexing.
- **Json** (`json.dfy`): result dictionaries as maps from keys to
  string, float, int or `None` values, with `dict.get` and Python truthiness.
- **Visualization** (`visualization.dfy`): `processing/image.py`. This covers
  the uint8 quantisation of the heatmap, nearest-neighbour resizing to 224×224,
  the `addWeighted` convex blend with alpha 0.4, the `data:image/png;base64,`
  wrapping, and the success and degraded shapes of `prepare_visualization_data`.
- **Inference** (`inference.dfy`): `predict_image_from_bytes` (argmax, label,
  which fields are present) and `predict_malaria` (content-type check, 400
  errors, `pdf_path`).
- **Ui** (`ui.dfy`): `base64_to_image`, the label to emoji and colour rule,
  and `check_api_status`.
- **Report** (`report.dfy`): `create_simple_report` and `generate_pdf`. This
  covers prefix stripping, cursor bookkeeping and field defaults.
- **Wrappers** (`wrappers.dfy`): `Option` and `Result`.

Real numbers stand in for float32 throughout.

Three consequences of the code are worth stating plainly:

- `_normalize_cam` subtracts the minimum before testing the maximum, so
  every constant map becomes all zeros (`Saliency.NormalizeRange`).
- When no activation or gradient was captured, `gradients[0]` raises
  `IndexError` inside the `try`/`finally`, and there is no fallback to the
  input-gradient map on that path (`GradCam.CamPass`). The caller in
  `main.py` then adds `original_image` only.
- `torch.argmax` returns the first maximal index when scores tie
  (`Tensors.ArgMax`).

## Model

| member | source | states |
|---|---|---|
| Tensors.GridMinIsLeast | python/malaria_clasification/src/gradcam/gradcam_utils.py:114 | `cam.min()` bounds every entry from below and is itself an entry |
| Tensors.GridMaxIsGreatest | python/malaria_clasification/src/gradcam/gradcam_utils.py:115-116 | `cam.max()` bounds every entry from above and is itself an entry |
| Tensors.CountOfGrid | python/malaria_clasification/src/gradcam/gradcam_utils.py:45 | an H×W map has exactly H·W entries to average over |
| Tensors.GridSumBounds | python/malaria_clasification/src/gradcam/gradcam_utils.py:45 | a sum of entries in [lo, hi] lies between Count copies of lo and Count copies of hi |
| Tensors.ArgMax | python/malaria_clasification/src/inference/main.py:75 | `argmax` returns an index of a maximal score, and no earlier score equals that maximum |
| Tensors.ArgMaxUnique | python/malaria_clasification/src/gradcam/gradcam_utils.py:35 | any index that is maximal and first among ties is the one `argmax` returns |
| Saliency.Shifted | python/malaria_clasification/src/gradcam/gradcam_utils.py:114 | `cam - c` keeps the shape and subtracts c from every entry |
| Saliency.DivideIfPositive | python/malaria_clasification/src/gradcam/gradcam_utils.py:115-116 | divides every entry by the new maximum only when that maximum is positive; otherwise the map is unchanged |
| Saliency.ShiftedMax | python/malaria_clasification/src/gradcam/gradcam_utils.py:114-115 | after the minimum is subtracted, the new maximum is max − min |
| Saliency.Normalize | python/malaria_clasification/src/gradcam/gradcam_utils.py:110-117 | normalisation keeps the shape of the map |
| Saliency.NormalizeIsAffine | python/malaria_clasification/src/gradcam/gradcam_utils.py:110-117 | each normalised entry is (x − min)/(max − min), or 0 when the map is constant |
| Saliency.NormalizeRange | python/malaria_clasification/src/gradcam/gradcam_utils.py:110-117 | every entry lies in [0, 1] and some entry is exactly 0; a non-constant map reaches exactly 1; a constant map becomes all zeros |
| Saliency.NormalizedUnitRange | python/malaria_clasification/src/gradcam/gradcam_utils.py:110-117 | the normalised map is non-empty, lies in [0, 1] and attains 0, stated on its own indices |
| Saliency.NormalizeMonotone | python/malaria_clasification/src/gradcam/gradcam_utils.py:114-116 | a ≤ b implies norm(a) ≤ norm(b); for a non-constant map the converse holds too |
| Saliency.AffineMonotone | python/malaria_clasification/src/gradcam/gradcam_utils.py:114-116 | the min-shift/max-divide rescaling keeps order, and reflects it when max > min |
| Saliency.NormalizeIdempotent | python/malaria_clasification/src/gradcam/gradcam_utils.py:110-117 | normalising an already normalised map changes nothing |
| Saliency.NormalizeCam | python/malaria_clasification/src/gradcam/gradcam_utils.py:110-117 | normalisation fails exactly on an empty map, where `min()` raises |
| Saliency.ChannelWeight | python/malaria_clasification/src/gradcam/gradcam_utils.py:45 | a channel's weight lies between the least and the greatest gradient of that channel |
| Saliency.ChannelWeightIsMean | python/malaria_clasification/src/gradcam/gradcam_utils.py:45 | the weight is the mean over H×W: as many copies of it as there are entries add up to the gradient sum |
| Saliency.ChannelWeightOfConstant | python/malaria_clasification/src/gradcam/gradcam_utils.py:45 | a gradient that is v everywhere gets weight v |
| Saliency.MeanOfBounded | python/malaria_clasification/src/gradcam/gradcam_utils.py:45 | the mean of entries in [lo, hi] lies in [lo, hi] |
| Saliency.Weights | python/malaria_clasification/src/gradcam/gradcam_utils.py:45 | one weight per gradient channel, each the mean of that channel |
| Saliency.Zeros | python/malaria_clasification/src/gradcam/gradcam_utils.py:48 | the starting CAM has the activation's spatial shape and is all zeros |
| Saliency.AddScaled | python/malaria_clasification/src/gradcam/gradcam_utils.py:50 | `cam += k * act[i]` adds k times the activation entry to every entry |
| Saliency.Accumulate | python/malaria_clasification/src/gradcam/gradcam_utils.py:48-50 | the loop keeps the activation's spatial shape |
| Saliency.AccumulateIsWeightedSum | python/malaria_clasification/src/gradcam/gradcam_utils.py:48-50 | after n channels each entry is Σ_{c<n} weight[c]·act[c][i][j] |
| Saliency.ReluGrid | python/malaria_clasification/src/gradcam/gradcam_utils.py:53 | `F.relu` keeps the shape and clamps each entry at 0 |
| Saliency.RawCam | python/malaria_clasification/src/gradcam/gradcam_utils.py:45-53 | the CAM has the activation's H×W; each entry is ReLU(Σ_c weight[c]·act[c]) and is ≥ 0 |
| Saliency.BuildCam | python/malaria_clasification/src/gradcam/gradcam_utils.py:45-54 | the normalised CAM exists exactly when H and W are positive; otherwise the min reduction fails |
| Saliency.MaxAbsAt | python/malaria_clasification/src/gradcam/gradcam_utils.py:100-103 | the value at one pixel is ≥ 0, bounds every channel's \|grad\| there, and equals one of them |
| Saliency.InputGradientMap | python/malaria_clasification/src/gradcam/gradcam_utils.py:100-103 | the fallback map has the input's H×W; each entry is the maximum over channels of \|grad\| and is ≥ 0 |
| Saliency.SimpleGradientMap | python/malaria_clasification/src/gradcam/gradcam_utils.py:100-106 | the normalised fallback map exists exactly when C, H and W are positive |
| Saliency.GridIsNonEmpty | python/malaria_clasification/src/gradcam/gradcam_utils.py:114 | an H×W map has an entry for `min()` exactly when H and W are positive |
| TargetLayer.FirstNamed | python/malaria_clasification/src/gradcam/gradcam_utils.py:70-73 | finds the first child with a given name, or reports that none has it |
| TargetLayer.Attribute | python/malaria_clasification/src/gradcam/gradcam_utils.py:70-73 | `hasattr(model, name)` holds iff some child has that name, and the value found is that child |
| TargetLayer.LastEntry | python/malaria_clasification/src/gradcam/gradcam_utils.py:72-75 | `block[-1]` is the last child of a non-empty container; an empty container gives IndexError; anything else is not subscriptable |
| TargetLayer.Preorder | python/malaria_clasification/src/gradcam/gradcam_utils.py:78 | `named_modules()` starts with the model itself |
| TargetLayer.LastConvIn | python/malaria_clasification/src/gradcam/gradcam_utils.py:77-80 | None iff no Conv2d occurs; otherwise a Conv2d with no Conv2d after it |
| TargetLayer.ScanForConv | python/malaria_clasification/src/gradcam/gradcam_utils.py:67-82 | the overwriting loop ends holding the last Conv2d, or None when there is none |
| TargetLayer.FindTargetLayer | python/malaria_clasification/src/gradcam/gradcam_utils.py:63-82 | `features[-1]` when `features` exists; otherwise `layer4[-1]`; otherwise the last Conv2d in traversal order, or None |
| GradCam.LocateToFault | python/malaria_clasification/src/gradcam/gradcam_utils.py:70-75 | `[-1]` on an empty block is IndexError and on a value that is not a container a TypeError, kept apart from classifier failures and empty reductions |
| TargetLayer.AnyConvAppend | python/malaria_clasification/src/gradcam/gradcam_utils.py:78-80 | a traversal has a Conv2d iff one of its two parts does |
| TargetLayer.PreorderFindsConv | python/malaria_clasification/src/gradcam/gradcam_utils.py:78-79 | the traversal meets a Conv2d iff the tree contains one |
| TargetLayer.NoTargetIffNoConv | python/malaria_clasification/src/gradcam/gradcam_utils.py:67-82 | without `features` and `layer4`, there is no target iff the tree has no Conv2d |
| GradCam.Register | python/malaria_clasification/src/gradcam/gradcam_utils.py:25-26 | registering yields a fresh handle and adds it to the live hooks |
| GradCam.Remove | python/malaria_clasification/src/gradcam/gradcam_utils.py:60-61 | removing takes exactly that handle out of the live hooks |
| GradCam.HooksLiveDuringPass | python/malaria_clasification/src/gradcam/gradcam_utils.py:25-26 | during the pass both hooks are live, distinct and new |
| GradCam.Forward | python/malaria_clasification/src/gradcam/gradcam_utils.py:31 | the forward pass gives the scores, or fails when the classifier raises |
| GradCam.ResolveTarget | python/malaria_clasification/src/gradcam/gradcam_utils.py:33-38 | a given class is used when in range, or IndexError; no class means the first maximal score, or an error on empty scores |
| GradCam.CamPass | python/malaria_clasification/src/gradcam/gradcam_utils.py:28-56 | a raising classifier gives its error and an out-of-range class gives IndexError; after that, nothing captured gives IndexError, and with captures the pass succeeds exactly when the activation map has H, W > 0, giving the normalised CAM of the activations and the chosen class's gradients |
| GradCam.FallbackPass | python/malaria_clasification/src/gradcam/gradcam_utils.py:84-108 | a raising classifier gives its error and an out-of-range class gives IndexError; otherwise the pass succeeds exactly when the chosen class's input gradient has C, H, W > 0, giving the normalised fallback map |
| GradCam.GenerateGradCam | python/malaria_clasification/src/gradcam/gradcam_utils.py:9-61 | no target layer sends the request to the fallback, a target layer to the CAM pass; on every outcome the live hooks end as they began |
| GradCam.GenerateGradCamSucceeds | python/malaria_clasification/src/gradcam/gradcam_utils.py:9-108 | a classifier that answers, a class in range and non-empty tensors on the chosen path (captured, on the hooked path) always give a map |
| GradCam.ResultIsNormalised | python/malaria_clasification/src/gradcam/gradcam_utils.py:54-56 | any map the pipeline returns is non-empty, lies in [0, 1] and has minimum 0 |
| GradCam.UnspecifiedTargetIsArgMax | python/malaria_clasification/src/gradcam/gradcam_utils.py:12-35 | on both paths, no target class gives the same result as asking for the argmax class |
| Base64.Encode | python/malaria_clasification/src/processing/image.py:34 | the encoding has length 4⌈n/3⌉, uses only the alphabet and the pad, and has no comma |
| Base64.DecodeEncode | python/malaria_clasification/src/processing/image.py:34 | decoding inverts encoding for every byte sequence |
| Base64.Decode | python/malaria_clasification/src/pdf/pdf_generator.py:45 | a length that is not a multiple of four, a character outside the alphabet and the pad, or a pad before the last group gives None; a decoding of n groups has between 3n - 2 and 3n bytes |
| Text.Split | python/malaria_clasification/src/ui/gradio_app.py:19 | `split(',')` gives separator-free pieces that join back to the input |
| Text.SplitJoin | python/malaria_clasification/src/ui/gradio_app.py:19 | splitting a join of separator-free pieces gives those pieces back |
| Text.SplitOnce | python/malaria_clasification/src/ui/gradio_app.py:19 | a string with one comma splits into the text before it and the text after it |
| Text.Segment | python/malaria_clasification/src/pdf/pdf_generator.py:41 | `split(',')[i]` exists iff there are more than i pieces, and has no comma |
| Json.Get | python/malaria_clasification/src/pdf/pdf_generator.py:26-27 | `dict.get` gives the stored value when the key is present, else the default |
| Visualization.Quantize | python/malaria_clasification/src/processing/image.py:40 | `(h*255).astype(uint8)` for h in [0, 1] is the floor of h·255, in [0, 255] |
| Visualization.QuantizeMonotone | python/malaria_clasification/src/processing/image.py:40 | quantisation keeps order |
| Visualization.QuantizeEnds | python/malaria_clasification/src/processing/image.py:40 | 0 maps to 0 and 1 maps to 255 |
| Visualization.QuantizeGrid | python/malaria_clasification/src/processing/image.py:40 | the uint8 image has the heatmap's shape and every pixel is the quantised entry |
| Visualization.NearestIndex | python/malaria_clasification/src/processing/image.py:44 | the nearest source index lies in range, at the pixel under the centre of the target pixel |
| Visualization.NearestIndexIdentity | python/malaria_clasification/src/processing/image.py:44 | resizing to the same length samples each pixel itself |
| Visualization.ResizeNearest | python/malaria_clasification/src/processing/image.py:44 | the result has exactly the requested size, and each pixel copies its nearest source pixel |
| Visualization.ResizeToOwnSize | python/malaria_clasification/src/processing/image.py:44 | resizing to the image's own size changes nothing |
| Visualization.HeatmapToGray | python/malaria_clasification/src/processing/image.py:37-44 | the grey image has the requested size (224×224 by default) and every pixel is the quantisation of some heatmap entry |
| Visualization.DefaultHeatmapSize | python/malaria_clasification/src/processing/image.py:37-44 | with the default size the picture is 224×224 for any map, and a 224×224 map is only quantised |
| Visualization.BlendBetween | python/malaria_clasification/src/processing/image.py:25 | `(1-α)·o + α·h` with 0 ≤ α ≤ 1 lies between o and h |
| Visualization.BlendPixel | python/malaria_clasification/src/processing/image.py:25 | each blended channel lies between the two source channels |
| Visualization.Overlay | python/malaria_clasification/src/processing/image.py:12-27 | the overlay has the original's shape, every pixel is the α-blend of the original pixel and the coloured heatmap pixel at the same place, and pixels stay in [0, 255] |
| Visualization.BlendExtremes | python/malaria_clasification/src/processing/image.py:25 | α = 0 gives the original and α = 1 gives the heatmap colours |
| Visualization.OverlayExtremes | python/malaria_clasification/src/processing/image.py:25 | on whole pictures, α = 0 gives back the original and α = 1 the coloured heatmap |
| Visualization.DefaultBlendFavoursOriginal | python/malaria_clasification/src/processing/image.py:12-25 | with the default α = 0.4 each blended value lies between the two it mixes and nearer the original |
| Visualization.ImageToBase64 | python/malaria_clasification/src/processing/image.py:29-35 | the result starts with `data:image/png;base64,`; what follows decodes to the PNG bytes and has no comma |
| Visualization.WrappedSplits | python/malaria_clasification/src/processing/image.py:34-35 | splitting the wrapped string on ',' gives exactly the prefix and the Base64 payload |
| Visualization.PrepareVisualization | python/malaria_clasification/src/processing/image.py:53-82 | original, heatmap and overlay are always present; heatmap and overlay are None exactly when rendering this heatmap fails, and otherwise wrap the pictures rendered from it; an empty heatmap raises |
| Visualization.OriginalIndependentOfRendering | python/malaria_clasification/src/processing/image.py:70-82 | `original` is the same encoding whether or not rendering succeeds |
| Report.AddCell | python/malaria_clasification/src/pdf/pdf_generator.py:29-30 | a one-line cell is appended and moves the cursor down 10 |
| Report.Payload | python/malaria_clasification/src/pdf/pdf_generator.py:40-43 | a `data:` string yields its segment after the first comma; any other string is used whole |
| Report.ImageBytes | python/malaria_clasification/src/pdf/pdf_generator.py:35-45 | a falsy value gives no bytes; otherwise the payload is Base64-decoded |
| Report.AddImageFromBase64 | python/malaria_clasification/src/pdf/pdf_generator.py:34-64 | a falsy or unreadable image leaves the document and returns the given y; if placing fails the title stays and the given y is returned; once placed the title and picture stay, and the result is y + 60 after the title line if the temporary file is removed and the given y if removal fails |
| Report.WrappedImageBytes | python/malaria_clasification/src/pdf/pdf_generator.py:40-45 | stripping and decoding a wrapped image gives back its bytes |
| Report.BareImageBytes | python/malaria_clasification/src/pdf/pdf_generator.py:42-45 | a bare Base64 string of non-empty bytes is decoded whole |
| Report.WrappedImagePlaced | python/malaria_clasification/src/pdf/pdf_generator.py:34-60 | a wrapped image that opens, is placed and whose temporary file is removed adds title and picture, and moves the cursor to y + 70 |
| Report.Prediction | python/malaria_clasification/src/pdf/pdf_generator.py:26 | a missing prediction defaults to 'N/A' |
| Report.Confidence | python/malaria_clasification/src/pdf/pdf_generator.py:27 | a missing confidence defaults to 0 |
| Report.ReportPage | python/malaria_clasification/src/pdf/pdf_generator.py:9-73 | heading, file, date, result and confidence (followed by `%`) come first; with no truthy overlay nothing else is added |
| Report.OverlayPlacedInReport | python/malaria_clasification/src/pdf/pdf_generator.py:66-73 | a wrapped overlay that opens adds exactly the section title and the picture, 85 below the top margin |
| Report.ReportPath | python/malaria_clasification/src/pdf/pdf_generator.py:78-79 | the path is `reports\reporte_`, then the time stamp, then `.pdf`, and the stamp can be read back from it |
| Report.ReportPathInjective | python/malaria_clasification/src/pdf/pdf_generator.py:78-79 | two reports get the same path exactly when their time stamps are equal |
| Report.GeneratePdf | python/malaria_clasification/src/pdf/pdf_generator.py:9-92 | the report is written iff making the directory and writing succeed, and None is returned otherwise; a written report has the stamped path and the page built from the 1 cm top margin, showing the file name and the result |
| Ui.Base64ToImage | python/malaria_clasification/src/ui/gradio_app.py:13-21 | a falsy value gives no image; otherwise the second comma segment is decoded; no comma and bad Base64 are errors |
| Ui.Base64ToImageRoundTrip | python/malaria_clasification/src/ui/gradio_app.py:19-20 | unwrapping `image_to_base64`'s output gives back exactly the PNG bytes |
| Ui.ImageField | python/malaria_clasification/src/ui/gradio_app.py:51-56 | a missing or None `heatmap`/`overlay` field gives no image |
| Ui.StatusStyle | python/malaria_clasification/src/ui/gradio_app.py:62-63 | "Infectado" shows 🦠 in red; every other label shows ✅ in green |
| Ui.LabelStyles | python/malaria_clasification/src/ui/gradio_app.py:62-63 | of the two labels the service gives, only the infected one is shown in red, so the two are shown apart |
| Ui.ApiStatus | python/malaria_clasification/src/ui/gradio_app.py:86-97 | status 200 means connected, any other status means problems, an exception means disconnected |
| Ui.ApiStatusDistinguishes | python/malaria_clasification/src/ui/gradio_app.py:90-97 | equal messages mean the same of the three outcomes |
| Inference.Label | python/malaria_clasification/src/inference/main.py:82 | the label is "Infectado" iff class 0, and "No infectado" iff any other class |
| Inference.ContentTypeAccepted | python/malaria_clasification/src/inference/main.py:150-154 | rejected iff a non-empty content type does not start with "image/"; a missing one is accepted |
| Inference.ImageTypesAccepted | python/malaria_clasification/src/inference/main.py:150-154 | every `image/...` type, a missing and an empty type pass; `text/plain` does not |
| Inference.KeySetsDisjoint | python/malaria_clasification/src/inference/main.py:90-111 | the Grad-CAM keys never overwrite a prediction key |
| Inference.PathKeyIsNew | python/malaria_clasification/src/inference/main.py:167 | `pdf_path` is neither a prediction nor a Grad-CAM key, so adding it overwrites nothing |
| Inference.PredictionFields | python/malaria_clasification/src/inference/main.py:90-94 | exactly prediction, confidence and class_id; class_id is the argmax and the label matches it |
| Inference.Scores | python/malaria_clasification/src/inference/main.py:66-75 | scores exist iff the bytes are a picture and the classifier answers non-empty scores; otherwise 400 |
| Inference.VisualFields | python/malaria_clasification/src/inference/main.py:103-111 | the four Grad-CAM fields: the wrapped original, the explanation, and heatmap and overlay holding the wrapped pictures rendered from the map, or both None |
| Inference.GradCamFields | python/malaria_clasification/src/inference/main.py:97-116 | original_image is always the wrapped picture; on Grad-CAM failure nothing else; on success the explanation, and heatmap and overlay holding the pictures rendered from the map, or both None when rendering fails |
| Inference.PredictImageFromBytes | python/malaria_clasification/src/inference/main.py:65-121 | success iff the picture can be scored, and any failure is 400; without Grad-CAM only the three prediction fields; with it `original_image` is always the wrapped PNG of the picture; if the map for `class_id` fails nothing else is added, and if it is made all four Grad-CAM fields are present, with the explanation naming the predicted label and heatmap and overlay holding the pictures rendered from that map (both None when rendering fails) |
| Inference.GradCamExplainsPrediction | python/malaria_clasification/src/inference/main.py:100-111 | the map behind the fields is the one for `class_id`, which equals the map for no given class; the heatmap is present exactly when that map was made, and heatmap and overlay then hold the pictures rendered from it |
| Inference.HeatmapIffMapMade | python/malaria_clasification/src/inference/main.py:97-116 | the `heatmap` field is present exactly when the map for `class_id` was made |
| Inference.NoHeatmapWithoutMap | python/malaria_clasification/src/inference/main.py:113-116 | a result holding only the prediction fields and the original picture has no heatmap |
| Inference.PredictionUnaffectedByGradCam | python/malaria_clasification/src/inference/main.py:106-116 | prediction, confidence and class_id are the same with and without Grad-CAM |
| Inference.PredictMalaria | python/malaria_clasification/src/inference/main.py:146-167 | a bad content type or unreadable file gives 400; on success the result is exactly what `predict_image_from_bytes` gave plus `pdf_path`, which is the stamped report path when the report was written and None otherwise |

## Left out

- Autograd and the network itself: forward and backward passes, `zero_grad`
  and `requires_grad_`. Scores, activations, layer gradients and input
  gradients are inputs of `GradCam.Network`, one gradient per class.
- Float semantics: float32 rounding, `softmax`, and the confidence's
  `round(..., 2)`. Reals stand in for floats, and the confidence is an input
  of `Inference.Upload`.
- Library image operations: the cv2 bilinear resize and `addWeighted`'s
  rounding and saturation to uint8, the matplotlib `jet`/`hot` colour tables,
  and PNG encoding and PIL decoding. PNG files are opaque byte sequences.
  What rendering a map gives, or whether it raises, is the `render` function
  of `Inference.Upload`.
- Serving and UI plumbing: FastAPI routing, uvicorn, model loading, the
  `requests` calls, the Gradio layout, and the response envelope
  (`filename`, `status`). `Ui.ApiStatus` takes the probe's outcome as input.
- PDF side effects: FPDF rendering and fonts, page breaks, temporary files,
  directories and the clock. Whether the imaging library accepts the bytes,
  whether placing the picture and removing its temporary file succeed,
  whether the file is written, the printed date and the time stamp are
  fields of `Report.Environment`.
- The diagnostic `print` calls in `prepare_visualization_data` and elsewhere.
- Concurrency of hooks on the shared model: the code has no locking.
- `named_modules` lists a module shared at several places only once; the model
  visits every occurrence. This only matters for a Conv2d shared at several
  places.
- `model_architecture.py`, `script.py` and `client_test.py` are not part of this model.
- Visualization.Quantize: requires h in [0, 1]. For other values the uint8
  cast wraps around, which is not modelled; normalised maps always satisfy
  the bound (`GradCam.ResultIsNormalised`).
- Ui.Base64ToImage: decodes strictly (no stray characters, padding required),
  whereas Python's `b64decode` discards characters outside the alphabet. The
  two agree on everything `image_to_base64` produces.
- Report.ImageBytes: the same strict decoding as `Ui.Base64ToImage`.
- Base64.Decode: the strict decoder both of the above use; it rejects what
  Python's lenient decoder would skip.
- TargetLayer.Attribute: `hasattr` is modelled over named child modules only.
  Non-module attributes named `features` or `layer4` are not modelled.
- Report.AddImageFromBase64: the picture's own height is not modelled; the
  cursor arithmetic is, so the returned y is the line below the title plus 60.
- Inference.PredictMalaria: a failing `file.read()` is the `readable` flag.
- GradCam.ResolveTarget: a given class is a natural number, so Python's
  negative indexing of `output[0, target_class]` is not modelled; the only
  caller passes the argmax, which is never negative.
