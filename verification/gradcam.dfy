/**
 * The Grad-CAM pipeline: locate the target layer, attach the two hooks,
 * run the classifier, build the map from the captured tensors, and detach
 * the hooks again on every way out.  Without a target layer the pipeline
 * falls back to the input-gradient map.
 *
 * The classifier is abstracted by what the pipeline observes of it: the
 * scores of the forward pass, the tensors the hooks capture, and the
 * gradients a backward pass from each class score produces.
 */
module GradCam {
  import opened Wrappers
  import opened Tensors
  import opened Saliency
  import opened TargetLayer

  // ---------------------------------------------------------------------------
  // Hook handles
  // ---------------------------------------------------------------------------

  /** The hooks attached to the model: live handles, and the next fresh handle. */
  datatype Registry = Registry(live: set<nat>, next: nat) {
    predicate Valid() {
      forall h :: h in live ==> h < next
    }
  }

  datatype Attached = Attached(handle: nat, hooks: Registry)

  /** Attach a hook; the handle returned is not already live. */
  function Register(reg: Registry): (a: Attached)
    requires reg.Valid()
    ensures a.handle !in reg.live
    ensures a.hooks.live == reg.live + {a.handle}
    ensures a.hooks.Valid()
  {
    Attached(reg.next, Registry(reg.live + {reg.next}, reg.next + 1))
  }

  /** `handle.remove()`. */
  function Remove(reg: Registry, h: nat): (r: Registry)
    ensures r.live == reg.live - {h}
    ensures reg.Valid() ==> r.Valid()
  {
    Registry(reg.live - {h}, reg.next)
  }

  // ---------------------------------------------------------------------------
  // The classifier as observed by the pipeline
  // ---------------------------------------------------------------------------

  datatype Network = Network(
    tree: Layer,
    scores: Option<seq<real>>,    // logits of the forward pass, None when it raises
    captured: bool,               // whether the hooks record an activation and a gradient
    activations: Tensor,          // output of the target layer for this image
    layerGradients: seq<Tensor>,  // per class: gradient of its score w.r.t. that output
    inputGradients: seq<Tensor>)  // per class: gradient of its score w.r.t. the image
  {
    /** A gradient has the shape of what it is taken against, and there is one per class. */
    predicate WellFormed() {
      activations.Valid() &&
      (scores.Some? ==> |layerGradients| == |scores.value| && |inputGradients| == |scores.value|) &&
      (forall k :: 0 <= k < |layerGradients| ==>
        layerGradients[k].Valid() && layerGradients[k].SameDims(activations)) &&
      (forall k :: 0 <= k < |inputGradients| ==> inputGradients[k].Valid())
    }
  }

  /** The forward pass; a raising model is reported as a failed evaluation. */
  function Forward(net: Network): (r: Result<seq<real>, Fault>)
    ensures r.Ok? <==> net.scores.Some?
    ensures r.Ok? ==> r.value == net.scores.value
    ensures r.Err? ==> r.error == EvaluationFailed
  {
    match net.scores
    case None => Err(EvaluationFailed)
    case Some(s) => Ok(s)
  }

  /**
   * The class whose score is back-propagated: the one asked for, or else
   * the first class with the highest score.
   */
  function ResolveTarget(target: Option<nat>, scores: seq<real>): (r: Result<nat, Fault>)
    ensures r.Ok? ==> r.value < |scores|
    ensures target.Some? ==> (r.Ok? <==> target.value < |scores|)
    ensures target.Some? && r.Ok? ==> r.value == target.value
    ensures target.Some? && r.Err? ==> r.error == IndexOutOfRange
    ensures target.None? ==> (r.Ok? <==> |scores| > 0)
    ensures target.None? && r.Ok? ==>
      (forall k :: 0 <= k < |scores| ==> scores[k] <= scores[r.value]) &&
      (forall k :: 0 <= k < r.value ==> scores[k] < scores[r.value])
    ensures target.None? && r.Err? ==> r.error == EmptyReduction
  {
    match target
    case Some(t) => if t < |scores| then Ok(t) else Err(IndexOutOfRange)
    case None => if |scores| == 0 then Err(EmptyReduction) else Ok(ArgMax(scores))
  }

  /** The body of the hooked pass, between registering and removing the hooks. */
  function CamPass(net: Network, target: Option<nat>): (r: Result<Grid, Fault>)
    requires net.WellFormed()
    ensures r.Ok? ==> net.captured && Forward(net).Ok? && ResolveTarget(target, Forward(net).value).Ok?
    ensures r.Ok? ==>
      var acts := net.activations;
      acts.height > 0 && acts.width > 0 && IsGrid(r.value, acts.height, acts.width) &&
      r.value == Normalize(RawCam(acts, net.layerGradients[ResolveTarget(target, Forward(net).value).value]))
    ensures Forward(net).Err? ==> r == Err(EvaluationFailed)
    ensures Forward(net).Ok? && ResolveTarget(target, Forward(net).value).Err? ==>
      r == Err(ResolveTarget(target, Forward(net).value).error)
    ensures !net.captured && Forward(net).Ok? && ResolveTarget(target, Forward(net).value).Ok? ==>
      r == Err(IndexOutOfRange)
    ensures net.captured && Forward(net).Ok? && ResolveTarget(target, Forward(net).value).Ok? ==>
      (r.Ok? <==> net.activations.height > 0 && net.activations.width > 0) &&
      (r.Err? ==> r.error == EmptyReduction)
  {
    var scores :- Forward(net);
    var cls :- ResolveTarget(target, scores);
    if !net.captured then Err(IndexOutOfRange)
    else BuildCam(net.activations, net.layerGradients[cls])
  }

  /** The fallback of a model without a target layer: the normalised input-gradient map. */
  function FallbackPass(net: Network, target: Option<nat>): (r: Result<Grid, Fault>)
    requires net.WellFormed()
    ensures r.Ok? ==> Forward(net).Ok? && ResolveTarget(target, Forward(net).value).Ok?
    ensures r.Ok? ==>
      var g := net.inputGradients[ResolveTarget(target, Forward(net).value).value];
      |g.channels| > 0 && g.height > 0 && g.width > 0 &&
      IsGrid(r.value, g.height, g.width) && r.value == Normalize(InputGradientMap(g))
    ensures Forward(net).Err? ==> r == Err(EvaluationFailed)
    ensures Forward(net).Ok? && ResolveTarget(target, Forward(net).value).Err? ==>
      r == Err(ResolveTarget(target, Forward(net).value).error)
    ensures Forward(net).Ok? && ResolveTarget(target, Forward(net).value).Ok? ==>
      var g := net.inputGradients[ResolveTarget(target, Forward(net).value).value];
      (r.Ok? <==> |g.channels| > 0 && g.height > 0 && g.width > 0) &&
      (r.Err? ==> r.error == EmptyReduction)
  {
    var scores :- Forward(net);
    var cls :- ResolveTarget(target, scores);
    SimpleGradientMap(net.inputGradients[cls])
  }

  /**
   * The indexing fault of the locator, as the pipeline reports it: `[-1]` on
   * an empty container is an IndexError, on anything else a TypeError; both
   * happen before any hook is attached or the classifier runs.
   */
  function LocateToFault(f: LocateFault): (r: Fault)
    ensures r == IndexOutOfRange <==> f == EmptyBlock
    ensures r == NotIndexable <==> f == NotSubscriptable
    ensures r != EvaluationFailed && r != EmptyReduction
  {
    match f
    case EmptyBlock => IndexOutOfRange
    case NotSubscriptable => NotIndexable
  }

  datatype Outcome = Outcome(result: Result<Grid, Fault>, hooks: Registry)

  /**
   * `generate_gradcam`.  The hooks attached around the hooked pass are both
   * gone afterwards, whatever the pass returned; the locator fault and the
   * fallback never attach any.
   */
  function GenerateGradCam(net: Network, target: Option<nat>, reg: Registry): (out: Outcome)
    requires net.WellFormed() && reg.Valid()
    ensures out.hooks.live == reg.live && out.hooks.Valid()
    ensures FindTargetLayer(net.tree).Err? ==>
      out.result == Err(LocateToFault(FindTargetLayer(net.tree).error))
    ensures FindTargetLayer(net.tree) == Ok(None) ==> out.result == FallbackPass(net, target)
    ensures FindTargetLayer(net.tree).Ok? && FindTargetLayer(net.tree).value.Some? ==>
      out.result == CamPass(net, target)
  {
    match FindTargetLayer(net.tree)
    case Err(f) => Outcome(Err(LocateToFault(f)), reg)
    case Ok(None) => Outcome(FallbackPass(net, target), reg)
    case Ok(Some(_)) =>
      var backward := Register(reg);
      var forward := Register(backward.hooks);
      var result := CamPass(net, target);
      var afterBackward := Remove(forward.hooks, backward.handle);
      var afterForward := Remove(afterBackward, forward.handle);
      assert afterForward.live == reg.live;
      Outcome(result, afterForward)
  }

  /**
   * When the classifier answers, the class resolves and the tensors the chosen
   * path reads are non-empty (and, on the hooked path, were captured), the
   * pipeline returns a map.
   */
  lemma GenerateGradCamSucceeds(net: Network, target: Option<nat>, reg: Registry)
    requires net.WellFormed() && reg.Valid()
    requires FindTargetLayer(net.tree).Ok?
    requires net.scores.Some? && ResolveTarget(target, net.scores.value).Ok?
    requires FindTargetLayer(net.tree).value.Some? ==>
      net.captured && net.activations.height > 0 && net.activations.width > 0
    requires FindTargetLayer(net.tree).value.None? ==>
      var g := net.inputGradients[ResolveTarget(target, net.scores.value).value];
      |g.channels| > 0 && g.height > 0 && g.width > 0
    ensures GenerateGradCam(net, target, reg).result.Ok?
  {
  }

  /**
   * While the hooked pass runs both hooks are live, and they are distinct
   * from each other and from every hook attached before.
   */
  lemma HooksLiveDuringPass(reg: Registry)
    requires reg.Valid()
    ensures var backward := Register(reg);
            var forward := Register(backward.hooks);
            backward.handle != forward.handle &&
            backward.handle !in reg.live && forward.handle !in reg.live &&
            forward.hooks.live == reg.live + {backward.handle, forward.handle}
  {
  }

  /** Whatever path produced it, a map the pipeline returns has entries, lies in [0, 1] and has a zero entry. */
  lemma ResultIsNormalised(net: Network, target: Option<nat>, reg: Registry)
    requires net.WellFormed() && reg.Valid()
    requires GenerateGradCam(net, target, reg).result.Ok?
    ensures var m := GenerateGradCam(net, target, reg).result.value;
      NonEmpty(m) &&
      (forall i, j :: InGrid(m, i, j) ==> 0.0 <= m[i][j] <= 1.0) &&
      (exists i, j :: InGrid(m, i, j) && m[i][j] == 0.0)
  {
    var m := GenerateGradCam(net, target, reg).result.value;
    var scores := Forward(net).value;
    var cls := ResolveTarget(target, scores).value;
    if FindTargetLayer(net.tree) == Ok(None) {
      var g := InputGradientMap(net.inputGradients[cls]);
      assert m == Normalize(g);
      NormalizedUnitRange(g);
    } else {
      var raw := RawCam(net.activations, net.layerGradients[cls]);
      assert m == Normalize(raw);
      NormalizedUnitRange(raw);
    }
  }

  /**
   * In both paths, a request without a target class back-propagates from
   * the first highest score: the map equals the one asked for that class.
   */
  lemma UnspecifiedTargetIsArgMax(net: Network, reg: Registry)
    requires net.WellFormed() && reg.Valid()
    requires net.scores.Some? && |net.scores.value| > 0
    ensures GenerateGradCam(net, None, reg).result ==
            GenerateGradCam(net, Some(ArgMax(net.scores.value)), reg).result
  {
  }
}
