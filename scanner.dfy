/** The visitor that collects the rigid-body transform nodes of a scene graph
    in visiting order; the keyframes store one transform per collected node,
    in this order. */
module RbtScanner {
  import opened SceneGraph

  class RbtNodesScanner {
    /** The caller's vector, appended to in place. */
    var nodes: seq<TransformNode>

    constructor (nodes: seq<TransformNode>)
      ensures this.nodes == nodes
    {
      this.nodes := nodes;
    }

    /** Appends the node if it is a rigid-body node; never prunes the
        traversal. */
    method Visit(node: TransformNode) returns (descend: bool)
      modifies this
      ensures descend
      ensures nodes == old(nodes) + (if node.isRbt then [node] else [])
    {
      if node.isRbt {
        nodes := nodes + [node];
      }
      return true;
    }

    /** The depth-first traversal of t with this scanner as the visitor. */
    method Accept(t: SgNode)
      modifies this
      ensures nodes == old(nodes) + RbtNodes(t)
      decreases t
    {
      match t
      case Shape(_) =>
      case Transform(n, cs) =>
        var descend := Visit(n);
        if descend {
          for i := 0 to |cs|
            invariant nodes == old(nodes) + (if n.isRbt then [n] else []) + RbtNodesIn(cs[..i])
          {
            Accept(cs[i]);
            assert cs[..i + 1][..i] == cs[..i];
          }
          assert cs[..|cs|] == cs;
        }
    }
  }

  /** Appends the rigid-body nodes of the graph below root to rbtNodes, in
      visiting order; what rbtNodes held before stays in front. */
  method DumpSgRbtNodes(root: SgNode, rbtNodes: seq<TransformNode>) returns (result: seq<TransformNode>)
    ensures result == rbtNodes + OnlyRbt(TransformNodes(root))
    ensures result[..|rbtNodes|] == rbtNodes
    ensures forall i :: |rbtNodes| <= i < |result| ==> result[i].isRbt
  {
    var scanner := new RbtNodesScanner(rbtNodes);
    scanner.Accept(root);
    result := scanner.nodes;
    RbtNodesAreFiltered(root);
    OnlyRbtAreRbt(TransformNodes(root));
  }
}
