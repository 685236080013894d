/**
 * The target-layer locator of the Grad-CAM pipeline.
 *
 * A network is a tree of layers; each layer has a kind and an ordered list
 * of named sub-layers (the attributes under which they were registered).
 * The locator prefers a `features` block, then a `layer4` block, and only
 * then searches the whole tree for the last convolution in traversal order.
 */
module TargetLayer {
  import opened Wrappers

  /** Indexable containers (Sequential, ModuleList) are told apart because only they accept `[-1]`. */
  datatype Kind = Conv2d | Container | Other(tag: string)

  datatype Layer = Layer(kind: Kind, children: seq<Named>)

  datatype Named = Named(name: string, layer: Layer)

  /** Why indexing the chosen block failed. */
  datatype LocateFault =
    | EmptyBlock       // `block[-1]` on a container with no entries (IndexError)
    | NotSubscriptable // `block[-1]` on a layer that is not a container (TypeError)

  predicate IsConv(m: Layer) {
    m.kind == Conv2d
  }

  /** First sub-layer registered under `name`, searched from position `from`. */
  function FirstNamed(cs: seq<Named>, name: string, from: nat): (r: Option<nat>)
    requires from <= |cs|
    ensures r.None? <==> forall i :: from <= i < |cs| ==> cs[i].name != name
    ensures r.Some? ==> from <= r.value < |cs| && cs[r.value].name == name
    ensures r.Some? ==> forall i :: from <= i < r.value ==> cs[i].name != name
    decreases |cs| - from
  {
    if from == |cs| then None
    else if cs[from].name == name then Some(from)
    else FirstNamed(cs, name, from + 1)
  }

  /** The attribute lookup `model.<name>` restricted to sub-layers: the sub-layer registered under `name`, if any. */
  function Attribute(m: Layer, name: string): (r: Option<Layer>)
    ensures r.None? <==> forall i :: 0 <= i < |m.children| ==> m.children[i].name != name
    ensures r.Some? ==> exists i :: 0 <= i < |m.children| && m.children[i].name == name && m.children[i].layer == r.value
  {
    match FirstNamed(m.children, name, 0)
    case None => None
    case Some(i) => Some(m.children[i].layer)
  }

  /** `block[-1]`: the last entry of an indexable container. */
  function LastEntry(block: Layer): (r: Result<Layer, LocateFault>)
    ensures r.Ok? <==> block.kind == Container && |block.children| > 0
    ensures r.Ok? ==> r.value == block.children[|block.children| - 1].layer
    ensures r.Err? && block.kind == Container ==> r.error == EmptyBlock
    ensures r.Err? && block.kind != Container ==> r.error == NotSubscriptable
  {
    if block.kind != Container then Err(NotSubscriptable)
    else if |block.children| == 0 then Err(EmptyBlock)
    else Ok(block.children[|block.children| - 1].layer)
  }

  /** All layers of the tree in pre-order: the layer itself, then each sub-tree in registration order. */
  function Preorder(m: Layer): (r: seq<Layer>)
    ensures |r| > 0 && r[0] == m
    decreases m, 1
  {
    [m] + PreorderFrom(m, 0)
  }

  /** Pre-order of the sub-trees of `m` from position `k` on. */
  function PreorderFrom(m: Layer, k: nat): seq<Layer>
    requires k <= |m.children|
    decreases m, 0, |m.children| - k
  {
    if k == |m.children| then []
    else Preorder(m.children[k].layer) + PreorderFrom(m, k + 1)
  }

  /** Structural reference: the tree contains a convolution somewhere. */
  predicate HasConv(m: Layer)
    decreases m, 1
  {
    IsConv(m) || HasConvFrom(m, 0)
  }

  predicate HasConvFrom(m: Layer, k: nat)
    requires k <= |m.children|
    decreases m, 0, |m.children| - k
  {
    k < |m.children| && (HasConv(m.children[k].layer) || HasConvFrom(m, k + 1))
  }

  predicate AnyConv(s: seq<Layer>) {
    exists k :: 0 <= k < |s| && IsConv(s[k])
  }

  /** `x` is a convolution at some position of `s` and no convolution follows it. */
  predicate IsLastConv(s: seq<Layer>, x: Layer) {
    exists k :: 0 <= k < |s| && s[k] == x && IsConv(x) && forall j :: k < j < |s| ==> !IsConv(s[j])
  }

  /** The last convolution of a traversal, or None when it has none. */
  function LastConvIn(s: seq<Layer>): (r: Option<Layer>)
    ensures r.None? <==> !AnyConv(s)
    ensures r.Some? ==> IsLastConv(s, r.value)
  {
    if s == [] then None
    else if IsConv(s[|s| - 1]) then Some(s[|s| - 1])
    else
      var r := LastConvIn(s[..|s| - 1]);
      DropLastNonConv(s, r);
      r
  }

  /** Dropping a final non-convolution changes neither the existence nor the identity of the last convolution. */
  lemma DropLastNonConv(s: seq<Layer>, r: Option<Layer>)
    requires |s| > 0 && !IsConv(s[|s| - 1])
    requires r.None? <==> !AnyConv(s[..|s| - 1])
    requires r.Some? ==> IsLastConv(s[..|s| - 1], r.value)
    ensures r.None? <==> !AnyConv(s)
    ensures r.Some? ==> IsLastConv(s, r.value)
  {
    var p := s[..|s| - 1];
    if AnyConv(s) {
      var k :| 0 <= k < |s| && IsConv(s[k]);
      assert k < |p| && p[k] == s[k];
    }
    if AnyConv(p) {
      var k :| 0 <= k < |p| && IsConv(p[k]);
      assert s[k] == p[k];
    }
    if r.Some? {
      var k :| 0 <= k < |p| && p[k] == r.value && IsConv(r.value) && forall j :: k < j < |p| ==> !IsConv(p[j]);
      assert s[k] == p[k];
      forall j | k < j < |s|
        ensures !IsConv(s[j])
      {
        if j < |p| { assert s[j] == p[j]; }
      }
    }
  }

  /**
   * The scan of the source: walk the traversal and remember every
   * convolution met, so that the last one is kept.
   */
  method ScanForConv(order: seq<Layer>) returns (target: Option<Layer>)
    ensures target.None? <==> !AnyConv(order)
    ensures target.Some? ==> IsLastConv(order, target.value)
  {
    target := None;
    var i := 0;
    while i < |order|
      invariant 0 <= i <= |order|
      invariant target == LastConvIn(order[..i])
    {
      assert order[..i + 1][..i] == order[..i];
      if IsConv(order[i]) {
        target := Some(order[i]);
      }
      i := i + 1;
    }
    assert order[..i] == order;
  }

  /**
   * The locator. `features` wins over `layer4`, which wins over the
   * search for the last convolution; indexing an empty or non-indexable
   * block is a fault.
   */
  function FindTargetLayer(model: Layer): (r: Result<Option<Layer>, LocateFault>)
    ensures Attribute(model, "features").Some? ==>
      var block := Attribute(model, "features").value;
      (r.Ok? <==> LastEntry(block).Ok?) && (r.Ok? ==> r.value == Some(block.children[|block.children| - 1].layer))
    ensures Attribute(model, "features").None? && Attribute(model, "layer4").Some? ==>
      var block := Attribute(model, "layer4").value;
      (r.Ok? <==> LastEntry(block).Ok?) && (r.Ok? ==> r.value == Some(block.children[|block.children| - 1].layer))
    ensures Attribute(model, "features").None? && Attribute(model, "layer4").None? ==>
      r.Ok? && (r.value.None? <==> !AnyConv(Preorder(model))) &&
      (r.value.Some? ==> IsLastConv(Preorder(model), r.value.value))
  {
    match Attribute(model, "features")
    case Some(block) =>
      var last :- LastEntry(block);
      Ok(Some(last))
    case None =>
      match Attribute(model, "layer4")
      case Some(block) =>
        var last :- LastEntry(block);
        Ok(Some(last))
      case None =>
        Ok(LastConvIn(Preorder(model)))
  }

  /** Concatenations contain a convolution exactly when one of their parts does. */
  lemma AnyConvAppend(a: seq<Layer>, b: seq<Layer>)
    ensures AnyConv(a + b) <==> AnyConv(a) || AnyConv(b)
  {
    if AnyConv(a + b) {
      var k :| 0 <= k < |a + b| && IsConv((a + b)[k]);
      if k < |a| { assert IsConv(a[k]); } else { assert IsConv(b[k - |a|]); }
    }
    if AnyConv(a) {
      var k :| 0 <= k < |a| && IsConv(a[k]);
      assert (a + b)[k] == a[k];
    }
    if AnyConv(b) {
      var k :| 0 <= k < |b| && IsConv(b[k]);
      assert (a + b)[|a| + k] == b[k];
    }
  }

  /** The traversal meets a convolution exactly when the tree holds one. */
  lemma {:induction false} PreorderFindsConv(m: Layer)
    ensures AnyConv(Preorder(m)) <==> HasConv(m)
    decreases m, 1
  {
    PreorderFromFindsConv(m, 0);
    AnyConvAppend([m], PreorderFrom(m, 0));
    assert AnyConv([m]) <==> IsConv(m) by {
      if IsConv(m) { assert [m][0] == m; }
    }
  }

  lemma {:induction false} PreorderFromFindsConv(m: Layer, k: nat)
    requires k <= |m.children|
    ensures AnyConv(PreorderFrom(m, k)) <==> HasConvFrom(m, k)
    decreases m, 0, |m.children| - k
  {
    if k < |m.children| {
      PreorderFindsConv(m.children[k].layer);
      PreorderFromFindsConv(m, k + 1);
      AnyConvAppend(Preorder(m.children[k].layer), PreorderFrom(m, k + 1));
    }
  }

  /**
   * Without a `features` or `layer4` block, the locator reports no
   * target exactly when the tree holds no convolution at all.
   */
  lemma NoTargetIffNoConv(model: Layer)
    requires Attribute(model, "features").None? && Attribute(model, "layer4").None?
    ensures FindTargetLayer(model) == Ok(None) <==> !HasConv(model)
  {
    PreorderFindsConv(model);
  }
}
