/** Picking by colour: every shape is drawn in a flat colour that encodes a
    numeric id, four bits per colour channel, and the id is mapped to the
    nearest enclosing rigid-body transform node. Reading back the pixel under
    the cursor and decoding its colour gives the id, hence the node. */
module Picking {
  import opened SceneGraph
  import opened Options
  import opened Quaternions

  /** Bits of the id carried by each channel and the ids per channel; the
      mask selecting one channel's bits, N - 1, is written 15 in the bit
      operations below. */
  const NBits: nat := 4
  const N: nat := 16

  /** The largest id plus one: three channels of four bits. */
  const IdLimit: nat := N * N * N

  /** One pixel as read back from the framebuffer, a byte per channel. */
  datatype PackedPixel = PackedPixel(r: bv8, g: bv8, b: bv8)

  /** The three four-bit digits of an id, lowest first. */
  datatype Nibbles = Nibbles(n0: int, n1: int, n2: int)

  lemma OrIsAdd(a: bv12, b: bv12)
    requires a < 16 && b < 256
    ensures (a | (b << 4)) as int == a as int + 16 * (b as int)
  {
  }

  lemma Split8(x: bv8)
    ensures x as int == 16 * ((x >> 4) as int) + (x & 15) as int
    ensures (x & 15) < 16
  {
  }

  lemma Widen(x: bv8)
    ensures ((x >> 4) as bv12) as int == (x >> 4) as int
  {
  }

  /** The channel digits of id: the low NBits bits, the bits shifted down
      by NBits and the bits shifted down by two NBits, each masked to NBits
      bits. On the non-negative ids allowed here, masking with N - 1 is the
      remainder by N and shifting down by NBits is division by N. Together
      the three are the base-16 digits of id. */
  function IdNibbles(id: int): (d: Nibbles)
    requires 0 < id < IdLimit
    ensures 0 <= d.n0 < N && 0 <= d.n1 < N && 0 <= d.n2 < N
    ensures id == d.n0 + 16 * d.n1 + 256 * d.n2
  {
    Nibbles(id % N, (id / N) % N, (id / (N * N)) % N)
  }

  /** The colour channel for one digit: the centre of the digit's
      1/N-wide band of intensities. */
  function Channel(n: int): real
  {
    n as real / N as real + 0.5 / N as real
  }

  /** The colour a shape with this id is drawn in, for a framebuffer that
      stores colours linearly. */
  function IdToColor(id: int): (c: Vec3)
    requires 0 < id < IdLimit
    ensures 0.0 < c.x < 1.0 && 0.0 < c.y < 1.0 && 0.0 < c.z < 1.0
  {
    var d := IdNibbles(id);
    Vec3(Channel(d.n0), Channel(d.n1), Channel(d.n2))
  }

  /** Distinct ids get distinct colours. */
  lemma IdToColorInjective(id1: int, id2: int)
    requires 0 < id1 < IdLimit && 0 < id2 < IdLimit
    requires IdToColor(id1) == IdToColor(id2)
    ensures id1 == id2
  {
    var d1, d2 := IdNibbles(id1), IdNibbles(id2);
    assert Channel(d1.n0) == Channel(d2.n0);
    assert Channel(d1.n1) == Channel(d2.n1);
    assert Channel(d1.n2) == Channel(d2.n2);
  }

  /** The high four bits of a channel byte, widened to the id's width. */
  function HighNibble(x: bv8): (h: bv12)
    ensures h < 16
    ensures h as int == x as int / 16
  {
    Split8(x);
    Widen(x);
    (x >> 4) as bv12
  }

  lemma Regroup(a: bv12, b: bv12, c: bv12)
    requires a < 16 && b < 16 && c < 16
    ensures a | (b << 4) | (c << 8) == a | ((b | (c << 4)) << 4)
    ensures b | (c << 4) < 256
  {
  }

  lemma OrIsAdd3(a: bv12, b: bv12, c: bv12)
    requires a < 16 && b < 16 && c < 16
    ensures (a | (b << 4) | (c << 8)) as int == a as int + 16 * (b as int) + 256 * (c as int)
  {
    Regroup(a, b, c);
    OrIsAdd(b, c);
    OrIsAdd(a, b | (c << 4));
  }

  /** The id a pixel's colour encodes: the high four bits of the red, green
      and blue bytes are its three base-16 digits, lowest first. */
  function ColorToId(p: PackedPixel): (id: int)
    ensures 0 <= id < IdLimit
    ensures id == p.r as int / 16 + 16 * (p.g as int / 16) + 256 * (p.b as int / 16)
  {
    var r, g, b := HighNibble(p.r), HighNibble(p.g), HighNibble(p.b);
    OrIsAdd3(r, g, b);
    (r | (g << 4) | (b << 8)) as int
  }

  /** A byte within half a step of the 8-bit quantisation of a digit's
      channel has that digit in its high four bits. */
  lemma QuantisedChannel(n: int, x: bv8)
    requires 0 <= n < N
    requires -0.5 <= x as real - 255.0 * Channel(n) <= 0.5
    ensures x as int / 16 == n
  {
    var b := x as int;
    assert 32.0 * b as real >= 510.0 * n as real + 239.0;
    assert 32.0 * b as real <= 510.0 * n as real + 271.0;
    assert 32 * b >= 510 * n + 239;
    assert 32 * b <= 510 * n + 271;
  }

  /** The byte a colour channel is stored as: within half a step of 255
      times the channel. */
  predicate Quantises(x: bv8, c: real)
  {
    -0.5 <= x as real - 255.0 * c <= 0.5
  }

  /** A pixel whose bytes carry id's digits in their high four bits, whatever
      their low four bits, decodes to id. */
  lemma ColorToIdOfNibbles(id: int, p: PackedPixel)
    requires 0 < id < IdLimit
    requires p.r as int / 16 == IdNibbles(id).n0
    requires p.g as int / 16 == IdNibbles(id).n1
    requires p.b as int / 16 == IdNibbles(id).n2
    ensures ColorToId(p) == id
  {
  }

  /** Drawing a shape in IdToColor(id) and reading back the stored pixel
      gives id again. */
  lemma PickRoundTrip(id: int, p: PackedPixel)
    requires 0 < id < IdLimit
    requires Quantises(p.r, IdToColor(id).x) && Quantises(p.g, IdToColor(id).y) && Quantises(p.b, IdToColor(id).z)
    ensures ColorToId(p) == id
  {
    var d := IdNibbles(id);
    QuantisedChannel(d.n0, p.r);
    QuantisedChannel(d.n1, p.g);
    QuantisedChannel(d.n2, p.b);
    ColorToIdOfNibbles(id, p);
  }

  /** The innermost rigid-body transform node on the stack of enclosing
      transform nodes (the top of the stack is the innermost), if any. */
  function NearestRbt(stack: seq<TransformNode>): Option<TransformNode>
  {
    if |stack| == 0 then None
    else if stack[|stack| - 1].isRbt then Some(stack[|stack| - 1])
    else NearestRbt(stack[..|stack| - 1])
  }

  /** NearestRbt finds a rigid-body node above which (towards the top)
      there is none, and finds nothing exactly when the stack holds no
      rigid-body node. */
  lemma {:induction false} NearestRbtIsNearest(stack: seq<TransformNode>)
    ensures NearestRbt(stack).None? <==> forall i :: 0 <= i < |stack| ==> !stack[i].isRbt
    ensures NearestRbt(stack).Some? ==>
      exists k :: 0 <= k < |stack| && stack[k] == NearestRbt(stack).value && stack[k].isRbt &&
        forall i :: k < i < |stack| ==> !stack[i].isRbt
  {
    if |stack| > 0 && !stack[|stack| - 1].isRbt {
      var s := stack[..|stack| - 1];
      NearestRbtIsNearest(s);
      assert NearestRbt(stack) == NearestRbt(s);
      assert forall i :: 0 <= i < |s| ==> s[i] == stack[i];
      if NearestRbt(s).Some? {
        var k :| 0 <= k < |s| && s[k] == NearestRbt(s).value && s[k].isRbt &&
          forall i :: k < i < |s| ==> !s[i].isRbt;
        assert stack[k] == NearestRbt(stack).value && stack[k].isRbt;
        assert forall i :: k < i < |stack| ==> !stack[i].isRbt;
      }
    } else if |stack| > 0 {
      var k := |stack| - 1;
      assert stack[k] == NearestRbt(stack).value && stack[k].isRbt;
    }
  }

  /** The entry an id table holds for id; nothing for an id never added. */
  function FindIn(m: map<int, Option<TransformNode>>, id: int): Option<TransformNode>
  {
    if id in m then m[id] else None
  }

  /** After recording a node for id, looking up id finds it and every other
      id finds what it found before. */
  lemma FindAfterAdd(m: map<int, Option<TransformNode>>, id: int, node: Option<TransformNode>, other: int)
    ensures FindIn(m[id := node], id) == node
    ensures other != id ==> FindIn(m[id := node], other) == FindIn(m, other)
  {
  }

  /** The ids one traversal of t hands out and the node recorded for each,
      starting from a stack of enclosing transform nodes and the last id
      handed out: shape by shape in visiting order, ids counting up from
      counter + 1, each mapped to its innermost enclosing rigid-body node. */
  function Assigned(t: SgNode, stack: seq<TransformNode>, counter: int): map<int, Option<TransformNode>>
    decreases t
  {
    match t
    case Shape(_) => map[counter + 1 := NearestRbt(stack)]
    case Transform(n, cs) => AssignedIn(cs, stack + [n], counter)
  }

  function AssignedIn(cs: seq<SgNode>, stack: seq<TransformNode>, counter: int): map<int, Option<TransformNode>>
    decreases cs
  {
    if |cs| == 0 then map[]
    else AssignedIn(cs[..|cs| - 1], stack, counter) + Assigned(cs[|cs| - 1], stack, counter + ShapesIn(cs[..|cs| - 1]))
  }

  /** One traversal hands out exactly the ids counter + 1 through
      counter + ShapeCount(t): one per shape, none repeated. */
  lemma {:induction false} AssignedIds(t: SgNode, stack: seq<TransformNode>, counter: int)
    ensures forall i :: i in Assigned(t, stack, counter) <==> counter < i <= counter + ShapeCount(t)
    decreases t, 1
  {
    match t
    case Shape(_) =>
    case Transform(n, cs) => AssignedInIds(cs, stack + [n], counter);
  }

  lemma {:induction false} AssignedInIds(cs: seq<SgNode>, stack: seq<TransformNode>, counter: int)
    ensures forall i :: i in AssignedIn(cs, stack, counter) <==> counter < i <= counter + ShapesIn(cs)
    decreases cs, 0
  {
    if |cs| > 0 {
      var front := cs[..|cs| - 1];
      AssignedInIds(front, stack, counter);
      AssignedIds(cs[|cs| - 1], stack, counter + ShapesIn(front));
    }
  }

  /** Every node recorded for a shape of t is a rigid-body node: one of the
      transform nodes of t, or the innermost one of the enclosing stack. */
  lemma {:induction false} AssignedNodes(t: SgNode, stack: seq<TransformNode>, counter: int, id: int)
    requires id in Assigned(t, stack, counter)
    ensures Assigned(t, stack, counter)[id] == NearestRbt(stack) ||
      (Assigned(t, stack, counter)[id].Some? && Assigned(t, stack, counter)[id].value.isRbt &&
       Assigned(t, stack, counter)[id].value in TransformNodes(t))
    decreases t, 1
  {
    match t
    case Shape(_) =>
    case Transform(n, cs) =>
      AssignedInNodes(cs, stack + [n], counter, id);
      if Assigned(t, stack, counter)[id] == NearestRbt(stack + [n]) && NearestRbt(stack + [n]) != NearestRbt(stack) {
        assert (stack + [n])[..|stack|] == stack;
        assert NearestRbt(stack + [n]) == Some(n);
      }
  }

  lemma {:induction false} AssignedInNodes(cs: seq<SgNode>, stack: seq<TransformNode>, counter: int, id: int)
    requires id in AssignedIn(cs, stack, counter)
    ensures AssignedIn(cs, stack, counter)[id] == NearestRbt(stack) ||
      (AssignedIn(cs, stack, counter)[id].Some? && AssignedIn(cs, stack, counter)[id].value.isRbt &&
       AssignedIn(cs, stack, counter)[id].value in TransformNodesIn(cs))
    decreases cs, 0
  {
    var front, last := cs[..|cs| - 1], cs[|cs| - 1];
    var c := counter + ShapesIn(front);
    if id in Assigned(last, stack, c) {
      AssignedNodes(last, stack, c, id);
    } else {
      AssignedInNodes(front, stack, counter, id);
    }
  }

  /** The picker: a scene-graph visitor that draws each shape in the colour
      of a fresh id and records, per id, the shape's innermost enclosing
      rigid-body node. */
  class Picker {
    /** The transform nodes enclosing the node being visited, innermost last. */
    var nodeStack: seq<TransformNode>
    /** The last id handed out. */
    var idCounter: int
    var idToRbtNode: map<int, Option<TransformNode>>

    constructor ()
      ensures nodeStack == [] && idCounter == 0 && idToRbtNode == map[]
    {
      nodeStack := [];
      idCounter := 0;
      idToRbtNode := map[];
    }

    /** Entering a transform node pushes it; the traversal continues below it. */
    method VisitTransform(node: TransformNode) returns (descend: bool)
      modifies this
      ensures descend
      ensures nodeStack == old(nodeStack) + [node]
      ensures idCounter == old(idCounter) && idToRbtNode == old(idToRbtNode)
    {
      nodeStack := nodeStack + [node];
      descend := true;
    }

    /** Leaving a transform node pops it. */
    method PostVisitTransform(node: TransformNode) returns (descend: bool)
      requires |nodeStack| > 0
      modifies this
      ensures descend
      ensures nodeStack == old(nodeStack)[..|old(nodeStack)| - 1]
      ensures idCounter == old(idCounter) && idToRbtNode == old(idToRbtNode)
    {
      nodeStack := nodeStack[..|nodeStack| - 1];
      descend := true;
    }

    /** Records node as the entry for id. */
    method AddToMap(id: int, node: Option<TransformNode>)
      modifies this
      ensures idToRbtNode == old(idToRbtNode)[id := node]
      ensures nodeStack == old(nodeStack) && idCounter == old(idCounter)
    {
      idToRbtNode := idToRbtNode[id := node];
    }

    /** The node recorded for id, or nothing. */
    function Find(id: int): (r: Option<TransformNode>)
      reads this
      ensures r.Some? ==> id in idToRbtNode && idToRbtNode[id] == r
      ensures id in idToRbtNode ==> r == idToRbtNode[id]
      ensures id !in idToRbtNode ==> r.None?
    {
      FindIn(idToRbtNode, id)
    }

    /** Visiting a shape hands out the next id, records the innermost
      rigid-body node on the stack for it, and returns the colour the shape
      is drawn in. */
    method VisitShape() returns (color: Vec3)
      requires 0 <= idCounter < IdLimit - 1
      modifies this
      ensures idCounter == old(idCounter) + 1
      ensures idToRbtNode == old(idToRbtNode)[idCounter := NearestRbt(old(nodeStack))]
      ensures color == IdToColor(idCounter)
      ensures nodeStack == old(nodeStack)
    {
      idCounter := idCounter + 1;
      var q: Option<TransformNode> := None;
      var i := |nodeStack| - 1;
      assert nodeStack[..i + 1] == nodeStack;
      while i >= 0
        invariant -1 <= i < |nodeStack|
        invariant NearestRbt(nodeStack) == NearestRbt(nodeStack[..i + 1])
        decreases i
      {
        assert nodeStack[..i + 1][..i] == nodeStack[..i];
        if nodeStack[i].isRbt {
          q := Some(nodeStack[i]);
          break;
        }
        i := i - 1;
      }
      if i < 0 {
        assert nodeStack[..0] == [];
      }
      AddToMap(idCounter, q);
      color := IdToColor(idCounter);
    }

    /** The node under the pixel: the colour read back decoded to an id and
      looked up. */
    method GetRbtNodeAtXY(pixel: PackedPixel) returns (r: Option<TransformNode>)
      ensures r == Find(ColorToId(pixel))
    {
      var id := ColorToId(pixel);
      r := Find(id);
    }

    /** The traversal of t with this picker as the visitor: the stack is as
      before, every shape has received the next id in visiting order and
      each of those ids is recorded with its shape's nearest rigid-body
      node. */
    method Accept(t: SgNode)
      requires 0 <= idCounter && idCounter + ShapeCount(t) < IdLimit
      modifies this
      ensures nodeStack == old(nodeStack)
      ensures idCounter == old(idCounter) + ShapeCount(t)
      ensures idToRbtNode == old(idToRbtNode) + Assigned(t, old(nodeStack), old(idCounter))
      decreases t
    {
      match t
      case Shape(_) =>
        var _ := VisitShape();
        UpdateIsUnion(old(idToRbtNode), old(idCounter) + 1, NearestRbt(old(nodeStack)));
      case Transform(n, cs) =>
        var stack0, counter0, map0 := nodeStack, idCounter, idToRbtNode;
        var descend := VisitTransform(n);
        for i := 0 to |cs|
          invariant nodeStack == stack0 + [n]
          invariant idCounter == counter0 + ShapesIn(cs[..i])
          invariant idToRbtNode == map0 + AssignedIn(cs[..i], stack0 + [n], counter0)
        {
          ghost var before := idToRbtNode;
          ghost var done := AssignedIn(cs[..i], stack0 + [n], counter0);
          ghost var next := Assigned(cs[i], stack0 + [n], counter0 + ShapesIn(cs[..i]));
          ShapesInBound(cs, i + 1);
          AssignedInStep(cs, i, stack0 + [n], counter0);
          Accept(cs[i]);
          UnionStep(idToRbtNode, before, map0, done, next, AssignedIn(cs[..i + 1], stack0 + [n], counter0));
        }
        assert cs[..|cs|] == cs;
        descend := PostVisitTransform(n);
        assert (stack0 + [n])[..|stack0|] == stack0;
    }
  }

  /** One more child: its shapes and its ids come after those of the
      children before it. */
  lemma AssignedInStep(cs: seq<SgNode>, i: nat, stack: seq<TransformNode>, counter: int)
    requires i < |cs|
    ensures ShapesIn(cs[..i + 1]) == ShapesIn(cs[..i]) + ShapeCount(cs[i])
    ensures AssignedIn(cs[..i + 1], stack, counter) ==
      AssignedIn(cs[..i], stack, counter) + Assigned(cs[i], stack, counter + ShapesIn(cs[..i]))
  {
    assert cs[..i + 1][..i] == cs[..i];
  }

  lemma UpdateIsUnion<K, V>(m: map<K, V>, k: K, v: V)
    ensures m[k := v] == m + map[k := v]
  {
  }

  lemma UnionStep<K, V>(m: map<K, V>, before: map<K, V>, a: map<K, V>, b: map<K, V>, c: map<K, V>, bc: map<K, V>)
    requires before == a + b && m == before + c && bc == b + c
    ensures m == a + bc
  {
    assert a + b + c == a + (b + c);
  }

  lemma {:induction false} ShapesInBound(cs: seq<SgNode>, k: nat)
    requires k <= |cs|
    ensures ShapesIn(cs[..k]) <= ShapesIn(cs)
    decreases |cs|
  {
    if k == |cs| {
      assert cs[..k] == cs;
    } else {
      assert cs[..|cs| - 1][..k] == cs[..k];
      ShapesInBound(cs[..|cs| - 1], k);
    }
  }
}
