/** The textbook view of a red-black tree, and the proof that the pointer structure kept
    by RbTree is one: its height is logarithmic in the number of nodes. */
module RbShape {
  import opened Basics
  import opened RbLinks
  import opened RbColour

  datatype Shape = Leaf | Fork(left: Shape, node: Ref, red: bool, right: Shape)

  // The tree reached by following child pointers from n.
  ghost function ShapeOf(t: State, n: Ref): Shape
    requires t.Linked() && (n == t.nil || n in t.spot)
    decreases if n == t.nil then 0 else t.spot[n].hi - t.spot[n].lo
  {
    if n == t.nil then Leaf
    else
      Neighbours(t, n);
      Fork(ShapeOf(t, t.mem[n].left), n, t.mem[n].red, ShapeOf(t, t.mem[n].right))
  }

  ghost function InOrder(s: Shape): seq<Ref> {
    match s
    case Leaf => []
    case Fork(l, n, _, r) => InOrder(l) + [n] + InOrder(r)
  }

  ghost function Height(s: Shape): nat {
    match s
    case Leaf => 0
    case Fork(l, _, _, r) => 1 + if Height(l) > Height(r) then Height(l) else Height(r)
  }

  // Black nodes on the leftmost path.
  ghost function BlackHeight(s: Shape): nat {
    match s
    case Leaf => 0
    case Fork(l, _, red, _) => BlackHeight(l) + if red then 0 else 1
  }

  ghost predicate IsRed(s: Shape) {
    s.Fork? && s.red
  }

  // No red node has a red child, and all paths down hold the same number of black nodes.
  ghost predicate RedBlack(s: Shape) {
    match s
    case Leaf => true
    case Fork(l, _, red, r) =>
      && RedBlack(l) && RedBlack(r) && BlackHeight(l) == BlackHeight(r)
      && (red ==> !IsRed(l) && !IsRed(r))
  }

  lemma {:induction false} InOrderOf(t: State, n: Ref)
    requires t.Linked() && (n == t.nil || n in t.spot)
    ensures n == t.nil ==> InOrder(ShapeOf(t, n)) == []
    ensures n != t.nil ==> t.At(n) && InOrder(ShapeOf(t, n)) == t.order[t.spot[n].lo..t.spot[n].hi]
    decreases if n == t.nil then 0 else t.spot[n].hi - t.spot[n].lo
  {
    if n != t.nil {
      Neighbours(t, n);
      InOrderOf(t, t.mem[n].left);
      InOrderOf(t, t.mem[n].right);
      var lo, k, hi := t.spot[n].lo, t.spot[n].pos, t.spot[n].hi;
      Around(t.order, lo, k, hi);
    }
  }

  lemma Around(order: seq<Ref>, lo: int, k: int, hi: int)
    requires 0 <= lo <= k < hi <= |order|
    ensures order[lo..hi] == order[lo..k] + [order[k]] + order[k + 1..hi] && order[lo..lo] == [] && order[hi..hi] == []
  {}

  lemma {:induction false} RedBlackOf(t: State, n: Ref)
    requires Coloured(t) && (n == t.nil || n in t.spot)
    ensures RedBlack(ShapeOf(t, n)) && BlackHeight(ShapeOf(t, n)) == Count(t, n) && IsRed(ShapeOf(t, n)) == Red(t, n)
    decreases if n == t.nil then 0 else t.spot[n].hi - t.spot[n].lo
  {
    if n != t.nil {
      Neighbours(t, n);
      assert BlackAt(t, n) && RedAt(t, n, t.nil);
      RedBlackOf(t, t.mem[n].left);
      RedBlackOf(t, t.mem[n].right);
    }
  }

  // A state kept by the operations is a red-black tree with a black root whose in-order walk is `order`.
  lemma ColouredIsRedBlack(t: State)
    requires Coloured(t)
    ensures t.root == t.nil || t.root in t.spot
    ensures RedBlack(ShapeOf(t, t.root)) && !IsRed(ShapeOf(t, t.root)) && InOrder(ShapeOf(t, t.root)) == t.order
  {
    RedBlackOf(t, t.root);
    InOrderOf(t, t.root);
  }

  lemma {:induction false} Pow2Mono(a: nat, b: nat)
    requires a <= b
    ensures Pow2(a) <= Pow2(b)
    decreases b
  {
    if a < b { Pow2Mono(a, b - 1); }
  }

  lemma {:induction false} Pow2Double(a: nat)
    ensures Pow2(2 * a) == Pow2(a) * Pow2(a)
  {
    if a > 0 {
      Pow2Double(a - 1);
      assert Pow2(2 * a) == 2 * (2 * Pow2(2 * (a - 1)));
    }
  }

  lemma {:induction false} EnoughNodes(s: Shape)
    requires RedBlack(s)
    ensures Pow2(BlackHeight(s)) <= |InOrder(s)| + 1
    ensures Height(s) <= 2 * BlackHeight(s) + if IsRed(s) then 1 else 0
  {
    match s
    case Leaf =>
    case Fork(l, _, _, r) =>
      EnoughNodes(l);
      EnoughNodes(r);
  }

  lemma SquareMono(b: nat, n: nat)
    requires b <= n
    ensures b * b <= n * n
  {
    assert b * b <= b * n;
  }

  lemma LowTree(s: Shape)
    requires RedBlack(s) && !IsRed(s)
    ensures Pow2(Height(s)) <= (|InOrder(s)| + 1) * (|InOrder(s)| + 1)
  {
    EnoughNodes(s);
    var b := Pow2(BlackHeight(s));
    Pow2Mono(Height(s), 2 * BlackHeight(s));
    Pow2Double(BlackHeight(s));
    SquareMono(b, |InOrder(s)| + 1);
  }

  // height <= 2 * log2(n + 1)
  lemma LogarithmicHeight(t: State)
    requires Coloured(t)
    ensures t.root == t.nil || t.root in t.spot
    ensures Pow2(Height(ShapeOf(t, t.root))) <= (|t.order| + 1) * (|t.order| + 1)
  {
    ColouredIsRedBlack(t);
    LowTree(ShapeOf(t, t.root));
  }
}
