/** The scene graph as the visitors see it: transform nodes (the rigid-body
    transform nodes among them are tagged) with ordered children, and shape
    leaves. The traversal the scene-graph library performs is taken to be the
    usual depth-first one: visit a transform node, traverse its children in
    order, post-visit it; a shape is visited and post-visited. */
module SceneGraph {

  /** A transform node, identified by id; isRbt marks a rigid-body transform
      node. */
  datatype TransformNode = TransformNode(id: nat, isRbt: bool)

  datatype SgNode = Transform(node: TransformNode, children: seq<SgNode>) | Shape(shape: nat)

  /** The number of shape leaves below t. */
  function ShapeCount(t: SgNode): nat
    decreases t
  {
    match t
    case Shape(_) => 1
    case Transform(_, cs) => ShapesIn(cs)
  }

  function ShapesIn(cs: seq<SgNode>): nat
    decreases cs
  {
    if |cs| == 0 then 0 else ShapesIn(cs[..|cs| - 1]) + ShapeCount(cs[|cs| - 1])
  }

  /** The rigid-body transform nodes of t in visiting order. */
  function RbtNodes(t: SgNode): seq<TransformNode>
    decreases t
  {
    match t
    case Shape(_) => []
    case Transform(n, cs) => (if n.isRbt then [n] else []) + RbtNodesIn(cs)
  }

  function RbtNodesIn(cs: seq<SgNode>): seq<TransformNode>
    decreases cs
  {
    if |cs| == 0 then [] else RbtNodesIn(cs[..|cs| - 1]) + RbtNodes(cs[|cs| - 1])
  }

  /** Every transform node of t in visiting order. */
  function TransformNodes(t: SgNode): seq<TransformNode>
    decreases t
  {
    match t
    case Shape(_) => []
    case Transform(n, cs) => [n] + TransformNodesIn(cs)
  }

  function TransformNodesIn(cs: seq<SgNode>): seq<TransformNode>
    decreases cs
  {
    if |cs| == 0 then [] else TransformNodesIn(cs[..|cs| - 1]) + TransformNodes(cs[|cs| - 1])
  }

  /** The subsequence of ns that are rigid-body transform nodes. */
  function OnlyRbt(ns: seq<TransformNode>): (r: seq<TransformNode>)
    ensures |r| <= |ns|
  {
    if |ns| == 0 then [] else OnlyRbt(ns[..|ns| - 1]) + (if ns[|ns| - 1].isRbt then [ns[|ns| - 1]] else [])
  }

  lemma {:induction false} OnlyRbtAppend(a: seq<TransformNode>, b: seq<TransformNode>)
    ensures OnlyRbt(a + b) == OnlyRbt(a) + OnlyRbt(b)
    decreases |b|
  {
    if |b| == 0 {
      assert a + b == a;
    } else {
      var b' := b[..|b| - 1];
      assert (a + b)[..|a + b| - 1] == a + b';
      OnlyRbtAppend(a, b');
    }
  }

  /** The rigid-body nodes collected are exactly the visited transform nodes
      that are rigid-body nodes, in the same order. */
  lemma {:induction false} RbtNodesAreFiltered(t: SgNode)
    ensures RbtNodes(t) == OnlyRbt(TransformNodes(t))
    decreases t, 1
  {
    match t
    case Shape(_) =>
    case Transform(n, cs) =>
      RbtNodesInAreFiltered(cs);
      OnlyRbtAppend([n], TransformNodesIn(cs));
      assert OnlyRbt([n]) == OnlyRbt([]) + (if n.isRbt then [n] else []);
  }

  lemma {:induction false} RbtNodesInAreFiltered(cs: seq<SgNode>)
    ensures RbtNodesIn(cs) == OnlyRbt(TransformNodesIn(cs))
    decreases cs, 0
  {
    if |cs| > 0 {
      RbtNodesInAreFiltered(cs[..|cs| - 1]);
      RbtNodesAreFiltered(cs[|cs| - 1]);
      OnlyRbtAppend(TransformNodesIn(cs[..|cs| - 1]), TransformNodes(cs[|cs| - 1]));
    }
  }

  /** Only rigid-body nodes are collected. */
  lemma {:induction false} OnlyRbtAreRbt(ns: seq<TransformNode>)
    ensures forall i :: 0 <= i < |OnlyRbt(ns)| ==> OnlyRbt(ns)[i].isRbt
  {
    if |ns| > 0 {
      OnlyRbtAreRbt(ns[..|ns| - 1]);
    }
  }
}
