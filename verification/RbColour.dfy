/** Colours and black heights of the red-black tree: what the fixup loops of
    ngx_rbtree_insert and ngx_rbtree_delete keep, and why each of their branches keeps it. */
module RbColour {
  import opened RbLinks

  ghost predicate Red(t: State, n: Ref) {
    n in t.mem && t.mem[n].red
  }

  // Black nodes on a path that starts at the child pointer c and goes down.
  ghost function Count(t: State, c: Ref): int {
    if c in t.spot && c in t.mem then t.spot[c].bh + (if t.mem[c].red then 0 else 1) else 0
  }

  // All paths below n hold the same number of black nodes.
  ghost predicate BlackAt(t: State, n: Ref) {
    n in t.mem && n in t.spot && 0 <= t.spot[n].bh == Count(t, t.mem[n].left) == Count(t, t.mem[n].right)
  }

  // A red node has no red child, unless that child is x.
  ghost predicate RedAt(t: State, n: Ref, x: Ref) {
    n in t.mem && (t.mem[n].red ==>
      && (Red(t, t.mem[n].left) ==> t.mem[n].left == x)
      && (Red(t, t.mem[n].right) ==> t.mem[n].right == x))
  }

  // A red-black tree.
  ghost predicate Coloured(t: State) {
    && t.Linked() && !Red(t, t.nil) && !Red(t, t.root)
    && (forall n {:trigger BlackAt(t, n)} :: n in t.spot ==> BlackAt(t, n))
    && (forall n {:trigger RedAt(t, n, t.nil)} :: n in t.spot ==> RedAt(t, n, t.nil))
  }

  // The invariant of the insert loop: the only defect is that node may be a red child of a red parent, or a red root.
  ghost predicate Inserting(t: State, node: Ref) {
    && t.Linked() && !Red(t, t.nil) && node in t.spot && Red(t, node)
    && (Red(t, t.root) ==> t.root == node)
    && (forall n {:trigger BlackAt(t, n)} :: n in t.spot ==> BlackAt(t, n))
    && (forall n {:trigger RedAt(t, n, node)} :: n in t.spot ==> RedAt(t, n, node))
  }

  // The paths through the child x of p are one black node short.
  ghost predicate ShortAt(t: State, p: Ref, x: Ref) {
    && p in t.mem && p in t.spot
    && var l, r := t.mem[p].left, t.mem[p].right;
    || (l == x && t.spot[p].bh == Count(t, x) + 1 == Count(t, r))
    || (r == x && t.spot[p].bh == Count(t, x) + 1 == Count(t, l))
  }

  // The invariant of the delete loop: paths through x are one black node short, and x may be a red child of a red
  // parent.
  ghost predicate Deleting(t: State, x: Ref) {
    && t.Linked() && !Red(t, t.nil) && (x in t.spot || x == t.nil)
    && (Red(t, t.root) ==> t.root == x)
    && (x != t.root ==> x in t.mem && ShortAt(t, t.mem[x].parent, x))
    && (forall n {:trigger BlackAt(t, n)} :: n in t.spot && (x == t.root || n != t.mem[x].parent) ==> BlackAt(t, n))
    && (forall n {:trigger RedAt(t, n, x)} :: n in t.spot && n != x ==> RedAt(t, n, x))
  }

  // Only colours and black heights differ.
  ghost predicate SameLinks(t: State, t': State) {
    && t'.mem.Keys == t.mem.Keys && t'.spot.Keys == t.spot.Keys
    && t'.root == t.root && t'.nil == t.nil && t'.order == t.order
    && (forall n {:trigger t'.mem[n]} :: n in t.mem ==> t'.mem[n] == t.mem[n].(red := t'.mem[n].red))
    && (forall n {:trigger t'.spot[n]} :: n in t.spot ==> t'.spot[n] == t.spot[n].(bh := t'.spot[n].bh))
  }

  lemma SameLinksLinked(t: State, t': State)
    requires t.Linked() && SameLinks(t, t')
    ensures t'.Linked()
  {
    forall n | n in t'.spot ensures t'.At(n) {
      Neighbours(t, n);
    }
  }

  // From t to t' the nodes of `tint` get new colours and those of `heights` new black heights; no other node does.
  ghost predicate Tinted(t: State, t': State, tint: map<Ref, bool>, heights: map<Ref, int>) {
    && (forall n {:trigger t'.mem[n]} :: n in t.mem && n in t'.mem ==>
       t'.mem[n].red == (if n in tint then tint[n] else t.mem[n].red))
    && (forall n {:trigger t'.spot[n]} :: n in t.spot && n in t'.spot ==>
       t'.spot[n].bh == (if n in heights then heights[n] else t.spot[n].bh))
  }

  lemma MirrorInserting(t: State, node: Ref)
    requires Inserting(t, node)
    ensures Inserting(t.Mirror(), node)
  {
    MirrorLinked(t);
    var u := t.Mirror();
    forall n | n in u.spot ensures BlackAt(u, n) && RedAt(u, n, node) {
      assert BlackAt(t, n) && RedAt(t, n, node);
    }
  }

  lemma MirrorDeleting(t: State, x: Ref)
    requires Deleting(t, x)
    ensures Deleting(t.Mirror(), x)
  {
    MirrorLinked(t);
    var u := t.Mirror();
    forall n | n in u.spot && (x == t.root || n != t.mem[x].parent) ensures BlackAt(u, n) {
      assert BlackAt(t, n);
    }
    forall n | n in u.spot && n != x ensures RedAt(u, n, x) {
      assert RedAt(t, n, x);
    }
  }

  // ---- insert ----

  // The parent p of node is red, g is the parent of p and u the uncle.
  ghost predicate RedParent(t: State, node: Ref, p: Ref, g: Ref, u: Ref) {
    && Inserting(t, node) && node != t.root && t.mem[node].parent == p && Red(t, p)
    && g in t.mem && g in t.spot
    && ((t.mem[g].left == p && t.mem[g].right == u) || (t.mem[g].right == p && t.mem[g].left == u))
  }

  lemma RedParentFacts(t: State, node: Ref, p: Ref, g: Ref, u: Ref)
    requires RedParent(t, node, p, g, u)
    ensures t.At(node) && t.At(p) && t.At(g) && p != t.root && t.mem[p].parent == g && !Red(t, g)
    ensures p != g && u != g && p != u && node != p && node != g && node != u
    ensures BlackAt(t, node) && BlackAt(t, p) && BlackAt(t, g) && RedAt(t, p, node) && RedAt(t, node, node) &&
      RedAt(t, g, node)
  {
    Neighbours(t, node);
    Neighbours(t, p);
    Neighbours(t, g);
    assert BlackAt(t, node) && BlackAt(t, p) && BlackAt(t, g) && RedAt(t, p, node) && RedAt(t, node, node) &&
      RedAt(t, g, node);
  }

  // The children of g are no other node's children.
  lemma OtherKids(t: State, n: Ref, g: Ref, p: Ref, u: Ref)
    requires t.Linked() && n in t.spot && g in t.spot && g in t.mem && n != g && p != t.nil && u != t.nil
    requires (t.mem[g].left == p && t.mem[g].right == u) || (t.mem[g].right == p && t.mem[g].left == u)
    ensures t.At(n) && var l, r := t.mem[n].left, t.mem[n].right; l != p && l != u && r != p && r != u
  {
    Neighbours(t, n);
    Neighbours(t, g);
  }

  // Red uncle: parent and uncle turn black, the grandparent red, and it becomes the focus.
  lemma RecolouredAt(t: State, t': State, node: Ref, p: Ref, u: Ref, g: Ref, n: Ref)
    requires RedParent(t, node, p, g, u) && Red(t, u) && SameLinks(t, t') && n in t.spot
    requires Tinted(t, t', map[p := false, u := false, g := true], map[g := t.spot[g].bh + 1])
    ensures BlackAt(t', n) && RedAt(t', n, g)
  {
    RedParentFacts(t, node, p, g, u);
    Neighbours(t, g);
    if n == g {
      assert BlackAt(t, n) && RedAt(t, n, node);
    } else {
      RecolouredRest(t, t', node, p, u, g, n);
    }
  }

  lemma RecolouredRest(t: State, t': State, node: Ref, p: Ref, u: Ref, g: Ref, n: Ref)
    requires RedParent(t, node, p, g, u) && Red(t, u) && SameLinks(t, t') && n in t.spot && n != g
    requires Tinted(t, t', map[p := false, u := false, g := true], map[g := t.spot[g].bh + 1])
    ensures BlackAt(t', n) && RedAt(t', n, g)
  {
    RedParentFacts(t, node, p, g, u);
    assert BlackAt(t, n) && RedAt(t, n, node);
    OtherKids(t, n, g, p, u);
    var l, r := t.mem[n].left, t.mem[n].right;
    assert Count(t', l) == Count(t, l);
    assert Count(t', r) == Count(t, r);
  }

  lemma Recoloured(t: State, t': State, node: Ref, p: Ref, u: Ref, g: Ref)
    requires RedParent(t, node, p, g, u) && Red(t, u) && SameLinks(t, t')
    requires Tinted(t, t', map[p := false, u := false, g := true], map[g := t.spot[g].bh + 1])
    ensures Inserting(t', g)
  {
    RedParentFacts(t, node, p, g, u);
    SameLinksLinked(t, t');
    forall n | n in t'.spot ensures BlackAt(t', n) && RedAt(t', n, g) {
      RecolouredAt(t, t', node, p, u, g, n);
    }
  }

  // A left rotation at x, with right child y, seen from any other node n: y stands where x stood.
  lemma RotatedLeftKids(t: State, t': State, x: Ref, y: Ref, b: Ref, p: Ref, n: Ref)
    requires t.Linked() && RotatedLeft(t, t', x, y, b, p) && n in t.spot && n != x && n != y
    ensures n in t.mem && n in t'.mem
    ensures t'.mem[n].left == (if t.mem[n].left == x then y else t.mem[n].left)
    ensures t'.mem[n].right == (if t.mem[n].right == x then y else t.mem[n].right)
    ensures t.mem[n].left != y && t.mem[n].right != y && (t.mem[n].left == x ==> t.mem[n].right != x)
    ensures var l := t.mem[n].left; l == t.nil || (l in t.mem && l in t.spot)
    ensures var r := t.mem[n].right; r == t.nil || (r in t.mem && r in t.spot)
  {
    Neighbours(t, n);
    Neighbours(t, x);
  }

  // node is the right child of a red parent: after the rotation at p the focus is p, now below node.
  lemma InnerTurnAt(t: State, t': State, node: Ref, p: Ref, g: Ref, u: Ref, b: Ref, n: Ref)
    requires RedParent(t, node, p, g, u) && RotatedLeft(t, t', p, node, b, g) && Tinted(t, t', map[], map[]) &&
      n in t.spot
    ensures BlackAt(t', n) && RedAt(t', n, p)
  {
    RedParentFacts(t, node, p, g, u);
    assert BlackAt(t, n) && RedAt(t, n, node);
    if n != p && n != node {
      RotatedLeftKids(t, t', p, node, b, g, n);
    } else {
      Neighbours(t, p);
      Neighbours(t, node);
    }
  }

  lemma InnerTurn(t: State, t': State, node: Ref, p: Ref, g: Ref, u: Ref, b: Ref)
    requires RedParent(t, node, p, g, u) && RotatedLeft(t, t', p, node, b, g) && Tinted(t, t', map[], map[])
    ensures Inserting(t', p)
  {
    RedParentFacts(t, node, p, g, u);
    RotatedLeftLinked(t, t', p, node, b, g);
    forall n | n in t'.spot ensures BlackAt(t', n) && RedAt(t', n, p) {
      InnerTurnAt(t, t', node, p, g, u, b, n);
    }
  }

  // node is the right child of p, itself the right child of g, and the uncle is black: p turns black,
  // g red, and the rotation at g ends the loop.
  lemma OuterTurnAt(t: State, t': State, node: Ref, p: Ref, g: Ref, u: Ref, b: Ref, q: Ref, n: Ref)
    requires RedParent(t, node, p, g, u) && !Red(t, u) && t.mem[g].right == p && p in t.mem && t.mem[p].right == node
    requires RotatedLeft(t, t', g, p, b, q) && Tinted(t, t', map[p := false, g := true], map[]) && n in t.spot
    ensures BlackAt(t', n) && RedAt(t', n, node)
  {
    if n == p || n == g {
      OuterTurnPair(t, t', node, p, g, u, b, q);
    } else {
      RedParentFacts(t, node, p, g, u);
      assert BlackAt(t, n) && RedAt(t, n, node);
      RotatedLeftKids(t, t', g, p, b, q, n);
    }
  }

  lemma OuterTurnPair(t: State, t': State, node: Ref, p: Ref, g: Ref, u: Ref, b: Ref, q: Ref)
    requires RedParent(t, node, p, g, u) && !Red(t, u) && t.mem[g].right == p && p in t.mem && t.mem[p].right == node
    requires RotatedLeft(t, t', g, p, b, q) && Tinted(t, t', map[p := false, g := true], map[])
    ensures BlackAt(t', p) && RedAt(t', p, node) && BlackAt(t', g) && RedAt(t', g, node)
  {
    RedParentFacts(t, node, p, g, u);
    Neighbours(t, p);
    Neighbours(t, g);
  }

  lemma OuterTurn(t: State, t': State, node: Ref, p: Ref, g: Ref, u: Ref, b: Ref, q: Ref)
    requires RedParent(t, node, p, g, u) && !Red(t, u) && t.mem[g].right == p && p in t.mem && t.mem[p].right == node
    requires RotatedLeft(t, t', g, p, b, q) && Tinted(t, t', map[p := false, g := true], map[])
    ensures Inserting(t', node) && t'.mem[node].parent == p && !Red(t', p)
  {
    RedParentFacts(t, node, p, g, u);
    RotatedLeftLinked(t, t', g, p, b, q);
    forall n | n in t'.spot ensures BlackAt(t', n) && RedAt(t', n, node) {
      OuterTurnAt(t, t', node, p, g, u, b, q, n);
    }
    assert t'.At(p);
  }

  // ---- delete ----

  // The short node x is a child of p and w is its sibling.
  ghost predicate Sibling(t: State, x: Ref, p: Ref, w: Ref) {
    && Deleting(t, x) && x != t.root && x in t.mem && t.mem[x].parent == p && p in t.mem
    && ((t.mem[p].left == x && t.mem[p].right == w) || (t.mem[p].right == x && t.mem[p].left == w))
  }

  // The sibling of a short node exists, so the loop may read its children.
  lemma SiblingFacts(t: State, x: Ref, p: Ref, w: Ref)
    requires Sibling(t, x, p, w) && !Red(t, x)
    ensures t.At(p) && t.At(w) && w != t.nil && t.mem[w].parent == p && w != t.root && w != x && w != p && x != p
    ensures BlackAt(t, w) && RedAt(t, w, x) && RedAt(t, p, x)
    ensures x != t.nil ==> BlackAt(t, x)
    ensures t.spot[p].bh == Count(t, x) + 1 == Count(t, w) && 0 <= Count(t, x)
    ensures Red(t, w) ==> !Red(t, p)
  {
    Neighbours(t, p);
    assert x != t.nil ==> BlackAt(t, x);
    assert 0 <= Count(t, x);
    assert Count(t, w) >= 1;
    Neighbours(t, w);
    assert BlackAt(t, w) && RedAt(t, w, x) && RedAt(t, p, x);
  }

  // Red sibling: the rotation at p gives x a black sibling and leaves x short.
  lemma RedSiblingAt(t: State, t': State, x: Ref, p: Ref, w: Ref, b: Ref, q: Ref, n: Ref)
    requires Sibling(t, x, p, w) && !Red(t, x) && t.mem[p].left == x && Red(t, w) && n in t.spot
    requires RotatedLeft(t, t', p, w, b, q) && Tinted(t, t', map[w := false, p := true], map[])
    ensures n != p ==> BlackAt(t', n)
    ensures n != x ==> RedAt(t', n, x)
  {
    SiblingFacts(t, x, p, w);
    assert n != p ==> BlackAt(t, n);
    assert n != x ==> RedAt(t, n, x);
    if n != p && n != w {
      RotatedLeftKids(t, t', p, w, b, q, n);
    } else {
      Neighbours(t, p);
      Neighbours(t, w);
    }
  }

  lemma RedSibling(t: State, t': State, x: Ref, p: Ref, w: Ref, b: Ref, q: Ref)
    requires Sibling(t, x, p, w) && !Red(t, x) && t.mem[p].left == x && Red(t, w)
    requires RotatedLeft(t, t', p, w, b, q) && Tinted(t, t', map[w := false, p := true], map[])
    ensures p in t'.mem && Sibling(t', x, p, t'.mem[p].right) && t'.mem[p].left == x && !Red(t', x) &&
      !Red(t', t'.mem[p].right)
  {
    SiblingFacts(t, x, p, w);
    Neighbours(t, p);
    Neighbours(t, w);
    RotatedLeftLinked(t, t', p, w, b, q);
    forall n | n in t'.spot && n != p ensures BlackAt(t', n) {
      RedSiblingAt(t, t', x, p, w, b, q, n);
    }
    forall n | n in t'.spot && n != x ensures RedAt(t', n, x) {
      RedSiblingAt(t, t', x, p, w, b, q, n);
    }
  }

  // Black sibling with black children: it turns red and p becomes the short node.
  lemma BlackNephewsAt(t: State, t': State, x: Ref, p: Ref, w: Ref, n: Ref)
    requires Sibling(t, x, p, w) && !Red(t, x) && !Red(t, w) && w in t.mem && n in t.spot
    requires !Red(t, t.mem[w].left) && !Red(t, t.mem[w].right)
    requires SameLinks(t, t') && Tinted(t, t', map[w := true], map[p := t.spot[p].bh - 1])
    ensures p == t.root || n != t.mem[p].parent ==> BlackAt(t', n)
    ensures n != p ==> RedAt(t', n, p)
  {
    SiblingFacts(t, x, p, w);
    if n != p {
      assert BlackAt(t, n);
      assert n != x ==> RedAt(t, n, x);
      OtherParent(t, n, p, w);
    }
  }

  lemma OtherParent(t: State, n: Ref, p: Ref, w: Ref)
    requires t.Linked() && n in t.spot && w in t.spot && w in t.mem && n != p && t.mem[w].parent == p && w != t.root
    ensures t.At(n) && t.mem[n].left != w && t.mem[n].right != w
    ensures p == t.root || (p in t.mem && n != t.mem[p].parent) ==> t.mem[n].left != p && t.mem[n].right != p
  {
    Neighbours(t, n);
    Neighbours(t, w);
  }

  lemma BlackNephews(t: State, t': State, x: Ref, p: Ref, w: Ref)
    requires Sibling(t, x, p, w) && !Red(t, x) && !Red(t, w) && w in t.mem
    requires !Red(t, t.mem[w].left) && !Red(t, t.mem[w].right)
    requires SameLinks(t, t') && Tinted(t, t', map[w := true], map[p := t.spot[p].bh - 1])
    ensures Deleting(t', p)
  {
    SiblingFacts(t, x, p, w);
    SameLinksLinked(t, t');
    BlackNephewsAll(t, t', x, p, w);
    if p != t.root {
      Neighbours(t, p);
      assert BlackAt(t, t.mem[p].parent);
    }
  }

  lemma BlackNephewsAll(t: State, t': State, x: Ref, p: Ref, w: Ref)
    requires Sibling(t, x, p, w) && !Red(t, x) && !Red(t, w) && w in t.mem && p in t.mem
    requires !Red(t, t.mem[w].left) && !Red(t, t.mem[w].right)
    requires SameLinks(t, t') && Tinted(t, t', map[w := true], map[p := t.spot[p].bh - 1])
    ensures forall n {:trigger BlackAt(t', n)} :: n in t'.spot && (p == t.root || n != t.mem[p].parent) ==>
      BlackAt(t', n)
    ensures forall n {:trigger RedAt(t', n, p)} :: n in t'.spot && n != p ==> RedAt(t', n, p)
  {
    forall n | n in t'.spot && (p == t.root || n != t.mem[p].parent) ensures BlackAt(t', n) {
      BlackNephewsAt(t, t', x, p, w, n);
    }
    forall n | n in t'.spot && n != p ensures RedAt(t', n, p) {
      BlackNephewsAt(t, t', x, p, w, n);
    }
  }

  // x is the right child and only the inner nephew is red: the rotation at w makes the outer one red.
  lemma InnerNephewAt(t: State, t': State, x: Ref, p: Ref, w: Ref, y: Ref, b: Ref, n: Ref)
    requires Sibling(t, x, p, w) && !Red(t, x) && t.mem[p].right == x && !Red(t, w) && w in t.mem && n in t.spot
    requires !Red(t, t.mem[w].left) && t.mem[w].right == y && Red(t, y)
    requires RotatedLeft(t, t', w, y, b, p) && Tinted(t, t', map[y := false, w := true], map[])
    ensures n != p ==> BlackAt(t', n)
    ensures n != x ==> RedAt(t', n, x)
  {
    SiblingFacts(t, x, p, w);
    if n == w || n == y {
      InnerNephewPair(t, t', x, p, w, y, b);
    } else {
      assert n != p ==> BlackAt(t, n);
      assert n != x ==> RedAt(t, n, x);
      RotatedLeftKids(t, t', w, y, b, p, n);
    }
  }

  lemma InnerNephewPair(t: State, t': State, x: Ref, p: Ref, w: Ref, y: Ref, b: Ref)
    requires Sibling(t, x, p, w) && !Red(t, x) && t.mem[p].right == x && !Red(t, w) && w in t.mem
    requires !Red(t, t.mem[w].left) && t.mem[w].right == y && Red(t, y)
    requires RotatedLeft(t, t', w, y, b, p) && Tinted(t, t', map[y := false, w := true], map[])
    ensures BlackAt(t', w) && RedAt(t', w, x) && BlackAt(t', y) && RedAt(t', y, x)
  {
    SiblingFacts(t, x, p, w);
    Neighbours(t, w);
    Neighbours(t, y);
    assert BlackAt(t, y) && RedAt(t, y, x);
  }

  lemma InnerNephew(t: State, t': State, x: Ref, p: Ref, w: Ref, y: Ref, b: Ref)
    requires Sibling(t, x, p, w) && !Red(t, x) && t.mem[p].right == x && !Red(t, w) && w in t.mem
    requires !Red(t, t.mem[w].left) && t.mem[w].right == y && Red(t, y)
    requires RotatedLeft(t, t', w, y, b, p) && Tinted(t, t', map[y := false, w := true], map[])
    ensures p in t'.mem && Sibling(t', x, p, y) && t'.mem[p].right == x && !Red(t', x) && !Red(t', y) &&
      t'.mem[y].left == w && Red(t', w)
  {
    SiblingFacts(t, x, p, w);
    Neighbours(t, p);
    Neighbours(t, w);
    Neighbours(t, y);
    assert BlackAt(t, y) && RedAt(t, y, x);
    RotatedLeftLinked(t, t', w, y, b, p);
    forall n | n in t'.spot && n != p ensures BlackAt(t', n) {
      InnerNephewAt(t, t', x, p, w, y, b, n);
    }
    forall n | n in t'.spot && n != x ensures RedAt(t', n, x) {
      InnerNephewAt(t, t', x, p, w, y, b, n);
    }
  }

  lemma OtherKid(t: State, n: Ref, w: Ref, r: Ref)
    requires t.Linked() && n in t.spot && w in t.spot && w in t.mem && n != w && r != t.nil && t.mem[w].right == r
    ensures t.At(n) && t.mem[n].left != r && t.mem[n].right != r
  {
    Neighbours(t, n);
    Neighbours(t, w);
  }

  lemma OtherLeftKid(t: State, n: Ref, p: Ref, x: Ref)
    requires t.Linked() && n in t.spot && p in t.spot && p in t.mem && n != p && t.mem[p].left == x
    ensures t.At(n) && (x != t.nil ==> t.mem[n].left != x && t.mem[n].right != x)
  {
    Neighbours(t, n);
    Neighbours(t, p);
  }

  // x is the left child and the outer nephew r is red: the rotation at p adds the missing black node.
  ghost predicate OuterNephewCase(t: State, t': State, x: Ref, p: Ref, w: Ref, r: Ref, b: Ref, q: Ref) {
    && Sibling(t, x, p, w) && !Red(t, x) && t.mem[p].left == x && !Red(t, w) && w in t.mem
    && t.mem[w].right == r && Red(t, r) && RotatedLeft(t, t', p, w, b, q)
    && Tinted(t, t', map[w := t.mem[p].red, p := false, r := false], map[w := t.spot[p].bh, p := t.spot[p].bh - 1])
  }

  lemma OuterNephewPair(t: State, t': State, x: Ref, p: Ref, w: Ref, r: Ref, b: Ref, q: Ref)
    requires OuterNephewCase(t, t', x, p, w, r, b, q)
    ensures BlackAt(t', p) && BlackAt(t', w) && RedAt(t', p, t'.root) && (w != t'.root ==> RedAt(t', w, t'.root))
  {
    SiblingFacts(t, x, p, w);
    Neighbours(t, w);
    Neighbours(t, p);
  }

  lemma OuterNephewRest(t: State, t': State, x: Ref, p: Ref, w: Ref, r: Ref, b: Ref, q: Ref, n: Ref)
    requires OuterNephewCase(t, t', x, p, w, r, b, q) && n in t.spot && n != p && n != w
    ensures BlackAt(t', n) && (n != t'.root ==> RedAt(t', n, t'.root))
  {
    OuterNephewRestBlack(t, t', x, p, w, r, b, q, n);
    OuterNephewRestRed(t, t', x, p, w, r, b, q, n);
  }

  lemma OuterNephewRestBlack(t: State, t': State, x: Ref, p: Ref, w: Ref, r: Ref, b: Ref, q: Ref, n: Ref)
    requires OuterNephewCase(t, t', x, p, w, r, b, q) && n in t.spot && n != p && n != w
    ensures BlackAt(t', n)
  {
    SiblingFacts(t, x, p, w);
    assert BlackAt(t, n);
    RotatedLeftKids(t, t', p, w, b, q, n);
    OtherKid(t, n, w, r);
  }

  lemma OuterNephewRestRed(t: State, t': State, x: Ref, p: Ref, w: Ref, r: Ref, b: Ref, q: Ref, n: Ref)
    requires OuterNephewCase(t, t', x, p, w, r, b, q) && n in t.spot && n != p && n != w
    ensures n != t'.root ==> RedAt(t', n, t'.root)
  {
    SiblingFacts(t, x, p, w);
    assert n != x ==> RedAt(t, n, x);
    RotatedLeftKids(t, t', p, w, b, q, n);
    OtherKid(t, n, w, r);
    OtherLeftKid(t, n, p, x);
  }

  lemma OuterNephew(t: State, t': State, x: Ref, p: Ref, w: Ref, r: Ref, b: Ref, q: Ref)
    requires OuterNephewCase(t, t', x, p, w, r, b, q)
    ensures Deleting(t', t'.root)
  {
    SiblingFacts(t, x, p, w);
    RotatedLeftLinked(t, t', p, w, b, q);
    forall n | n in t'.spot ensures BlackAt(t', n) && (n != t'.root ==> RedAt(t', n, t'.root)) {
      if n == p || n == w {
        OuterNephewPair(t, t', x, p, w, r, b, q);
      } else {
        OuterNephewRest(t, t', x, p, w, r, b, q, n);
      }
    }
  }

  // The loop stops at the root or at a red node; painting it black restores the tree.
  lemma DeleteDone(t: State, t': State, x: Ref)
    requires Deleting(t, x) && (x == t.root || Red(t, x)) && SameLinks(t, t') && Tinted(t, t', map[x := false], map[])
    ensures Coloured(t')
  {
    SameLinksLinked(t, t');
    forall n | n in t'.spot ensures BlackAt(t', n) && RedAt(t', n, t'.nil) {
      DeleteDoneAt(t, t', x, n);
    }
  }

  lemma DeleteDoneAt(t: State, t': State, x: Ref, n: Ref)
    requires Deleting(t, x) && (x == t.root || Red(t, x)) && SameLinks(t, t') && Tinted(t, t', map[x := false], map[])
    requires n in t.spot
    ensures BlackAt(t', n) && RedAt(t', n, t'.nil)
  {
    assert x != t.root ==> t.mem[x].parent != x by { if x != t.root { Neighbours(t, x); } }
    assert x != t.root ==> BlackAt(t, x);
    Neighbours(t, n);
    assert x == t.root || n != t.mem[x].parent ==> BlackAt(t, n);
    assert n != x ==> RedAt(t, n, x);
  }

  // ---- the binary-tree steps that precede the fixups ----

  lemma AttachedLeftInserting(t: State, t': State, n: Ref, q: Ref)
    requires Coloured(t) && AttachedLeft(t, t', n, q)
    ensures Inserting(t', n)
  {
    AttachedLeftLinked(t, t', n, q);
    Neighbours(t, q);
    forall m | m in t'.spot ensures BlackAt(t', m) && RedAt(t', m, n) {
      if m != n {
        AttachedLeftAt(t, t', n, q, m);
      }
    }
  }

  lemma AttachedLeftAt(t: State, t': State, n: Ref, q: Ref, m: Ref)
    requires Coloured(t) && AttachedLeft(t, t', n, q) && m in t.spot && m != n
    ensures BlackAt(t', m) && RedAt(t', m, n)
  {
    assert BlackAt(t, m) && RedAt(t, m, t.nil) && t.At(m);
    var l, r := t.mem[m].left, t.mem[m].right;
    assert l != t.nil ==> t.At(l) && Count(t', l) == Count(t, l);
    assert r != t.nil ==> t.At(r) && Count(t', r) == Count(t, r);
  }

  lemma MirrorColoured(t: State)
    requires Coloured(t)
    ensures Coloured(t.Mirror())
  {
    MirrorLinked(t);
    var u := t.Mirror();
    forall n | n in u.spot ensures BlackAt(u, n) && RedAt(u, n, u.nil) {
      assert BlackAt(t, n) && RedAt(t, n, t.nil);
    }
  }

  lemma AttachedRightInserting(t: State, t': State, n: Ref, q: Ref)
    requires Coloured(t) && AttachedRight(t, t', n, q)
    ensures Inserting(t', n)
  {
    MirrorColoured(t);
    AttachedRightMirror(t, t', n, q);
    AttachedLeftInserting(t.Mirror(), t'.Mirror(), n, q);
    MirrorInserting(t'.Mirror(), n);
    MirrorTwice(t');
  }

  lemma SplicedKids(t: State, t': State, s: Ref, c: Ref, p: Ref, n: Ref)
    requires t.Linked() && Spliced(t, t', s, c, p) && n in t'.spot
    ensures t.At(n) && n != s && n in t'.mem && t'.mem[n].red == t.mem[n].red && t'.spot[n].bh == t.spot[n].bh
    ensures t'.mem[n].left == (if t.mem[n].left == s then c else t.mem[n].left)
    ensures t'.mem[n].right == (if t.mem[n].right == s then c else t.mem[n].right)
    ensures t.mem[n].left == s || t.mem[n].right == s ==> s != t.root && n == p && t.mem[n].left != t.mem[n].right
    ensures t.mem[n].left != s && t.mem[n].right != s ==> s == t.root || n != p
  {
    Neighbours(t, n);
    Neighbours(t, s);
  }

  lemma SplicedCount(t: State, t': State, s: Ref, c: Ref, p: Ref, m: Ref)
    requires Spliced(t, t', s, c, p) && (m == t.nil || (m in t'.spot && m in t.mem)) && t.nil in t.mem &&
      t.nil !in t.spot
    ensures Count(t', m) == Count(t, m) && Red(t', m) == Red(t, m)
  {}

  // Removing a red node breaks nothing; removing a black one leaves its child short.
  lemma SplicedAt(t: State, t': State, s: Ref, c: Ref, p: Ref, n: Ref)
    requires Coloured(t) && Spliced(t, t', s, c, p) && n in t'.spot
    ensures Red(t, s) || s == t.root || n != p ==> BlackAt(t', n)
    ensures RedAt(t', n, if Red(t, s) then t.nil else c)
  {
    assert BlackAt(t, n) && RedAt(t, n, t.nil) && BlackAt(t, s) && RedAt(t, s, t.nil);
    SplicedKids(t, t', s, c, p, n);
    SplicedKidCounts(t, t', s, c, p, n);
    assert Count(t, c) == t.spot[s].bh;
  }

  lemma SplicedKidCounts(t: State, t': State, s: Ref, c: Ref, p: Ref, n: Ref)
    requires Coloured(t) && Spliced(t, t', s, c, p) && n in t'.spot && t.At(n)
    ensures t.At(s)
    ensures var l := if t.mem[n].left == s then c else t.mem[n].left;
      Count(t', l) == Count(t, l) && Red(t', l) == Red(t, l)
    ensures var r := if t.mem[n].right == s then c else t.mem[n].right;
      Count(t', r) == Count(t, r) && Red(t', r) == Red(t, r)
  {
    assert t.At(s);
    var l, r := t.mem[n].left, t.mem[n].right;
    assert l != t.nil ==> t.At(l);
    assert r != t.nil ==> t.At(r);
    SplicedCount(t, t', s, c, p, if l == s then c else l);
    SplicedCount(t, t', s, c, p, if r == s then c else r);
  }

  lemma SplicedShort(t: State, t': State, s: Ref, c: Ref, p: Ref)
    requires Coloured(t) && Spliced(t, t', s, c, p) && s != t.root
    ensures p in t'.spot && c in t'.mem && t'.mem[c].parent == p && (c in t'.spot || c == t.nil)
    ensures !Red(t, s) ==> ShortAt(t', p, c)
  {
    Neighbours(t, s);
    SplicedKids(t, t', s, c, p, p);
    assert BlackAt(t, p) && BlackAt(t, s);
    var l, r := t.mem[p].left, t.mem[p].right;
    assert l != t.nil ==> t.At(l);
    assert r != t.nil ==> t.At(r);
    SplicedCount(t, t', s, c, p, if l == s then r else l);
    SplicedCount(t, t', s, c, p, c);
  }

  lemma SplicedColours(t: State, t': State, s: Ref, c: Ref, p: Ref)
    requires Coloured(t) && Spliced(t, t', s, c, p)
    ensures Red(t, s) ==> Coloured(t')
    ensures !Red(t, s) ==> Deleting(t', c)
  {
    SplicedLinked(t, t', s, c, p);
    forall n | n in t'.spot && (Red(t, s) || s == t.root || n != p) ensures BlackAt(t', n) {
      SplicedAt(t, t', s, c, p, n);
    }
    forall n | n in t'.spot ensures RedAt(t', n, if Red(t, s) then t.nil else c) {
      SplicedAt(t, t', s, c, p, n);
    }
    assert t.At(s) && BlackAt(t, s) && RedAt(t, s, t.nil);
    if s != t.root {
      SplicedShort(t, t', s, c, p);
    }
  }

  lemma RenamedKids(t: State, t': State, a: Ref, b: Ref, n: Ref, o: Ref)
    requires t.Linked() && Renamed(t, t', a, b) && n in t'.spot && o == (if n == b then a else n)
    ensures t.At(o) && n in t'.mem && t'.mem[n].red == t.mem[o].red && t'.spot[n] == t.spot[o]
    ensures t'.mem[n].left == (if t.mem[o].left == a then b else t.mem[o].left)
    ensures t'.mem[n].right == (if t.mem[o].right == a then b else t.mem[o].right)
    ensures t.mem[o].left != b && t.mem[o].right != b
  {
    Neighbours(t, a);
    Neighbours(t, o);
  }

  lemma RenamedCount(t: State, t': State, a: Ref, b: Ref, c: Ref)
    requires Renamed(t, t', a, b) && !Red(t, t.nil) && (c == t.nil || (c in t.spot && c in t.mem)) && t.nil in t.mem &&
      t.nil !in t.spot
    ensures var c' := if c == a then b else c; Count(t', c') == Count(t, c) && Red(t', c') == Red(t, c)
  {}

  lemma RenamedAt(t: State, t': State, a: Ref, b: Ref, n: Ref, o: Ref, x: Ref)
    requires t.Linked() && Renamed(t, t', a, b) && !Red(t, t.nil) && x != a && x != b
    requires n in t'.spot && o == (if n == b then a else n) && (x == t.nil || x in t.spot)
    ensures o in t.mem && n in t'.mem
    ensures BlackAt(t, o) ==> BlackAt(t', n)
    ensures RedAt(t, o, x) ==> RedAt(t', n, x)
    ensures ShortAt(t, o, x) ==> ShortAt(t', n, x)
  {
    RenamedKids(t, t', a, b, n, o);
    var l, r := t.mem[o].left, t.mem[o].right;
    assert l != t.nil ==> t.At(l);
    assert r != t.nil ==> t.At(r);
    RenamedCount(t, t', a, b, l);
    RenamedCount(t, t', a, b, r);
  }

  lemma RenamedColoured(t: State, t': State, a: Ref, b: Ref)
    requires Coloured(t) && Renamed(t, t', a, b)
    ensures Coloured(t')
  {
    RenamedLinked(t, t', a, b);
    forall n | n in t'.spot ensures BlackAt(t', n) && RedAt(t', n, t'.nil) {
      var o := if n == b then a else n;
      RenamedAt(t, t', a, b, n, o, t.nil);
      assert BlackAt(t, o) && RedAt(t, o, t.nil);
    }
  }

  lemma RenamedDeleting(t: State, t': State, a: Ref, b: Ref, x: Ref)
    requires Deleting(t, x) && Renamed(t, t', a, b) && x != a && x != b
    requires x == t.nil ==> x in t'.mem && t'.mem[x].parent == if t.mem[x].parent == a then b else t.mem[x].parent
    ensures Deleting(t', x)
  {
    RenamedLinked(t, t', a, b);
    forall n | n in t'.spot && (x == t'.root || n != t'.mem[x].parent) ensures BlackAt(t', n) {
      var o := if n == b then a else n;
      RenamedAt(t, t', a, b, n, o, x);
      assert BlackAt(t, o);
    }
    forall n | n in t'.spot && n != x ensures RedAt(t', n, x) {
      var o := if n == b then a else n;
      RenamedAt(t, t', a, b, n, o, x);
      assert RedAt(t, o, x);
    }
    if x != t.root {
      RenamedAt(t, t', a, b, t'.mem[x].parent, t.mem[x].parent, x);
    }
  }

  // ---- the mirrored branches ----

  lemma InnerTurnRight(t: State, t': State, node: Ref, p: Ref, g: Ref, u: Ref, b: Ref)
    requires RedParent(t, node, p, g, u) && RotatedRight(t, t', p, node, b, g) && Tinted(t, t', map[], map[])
    ensures Inserting(t', p)
  {
    MirrorInserting(t, node);
    RotatedRightMirror(t, t', p, node, b, g);
    InnerTurn(t.Mirror(), t'.Mirror(), node, p, g, u, b);
    MirrorInserting(t'.Mirror(), p);
    MirrorTwice(t');
  }

  lemma OuterTurnRight(t: State, t': State, node: Ref, p: Ref, g: Ref, u: Ref, b: Ref, q: Ref)
    requires RedParent(t, node, p, g, u) && !Red(t, u) && t.mem[g].left == p && p in t.mem && t.mem[p].left == node
    requires RotatedRight(t, t', g, p, b, q) && Tinted(t, t', map[p := false, g := true], map[])
    ensures Inserting(t', node) && t'.mem[node].parent == p && !Red(t', p)
  {
    MirrorInserting(t, node);
    RotatedRightMirror(t, t', g, p, b, q);
    OuterTurn(t.Mirror(), t'.Mirror(), node, p, g, u, b, q);
    MirrorInserting(t'.Mirror(), node);
    MirrorTwice(t');
  }

  lemma MirrorSibling(t: State, x: Ref, p: Ref, w: Ref)
    requires Sibling(t, x, p, w)
    ensures Sibling(t.Mirror(), x, p, w)
  {
    MirrorDeleting(t, x);
  }

  lemma RedSiblingRight(t: State, t': State, x: Ref, p: Ref, w: Ref, b: Ref, q: Ref)
    requires Sibling(t, x, p, w) && !Red(t, x) && t.mem[p].right == x && Red(t, w)
    requires RotatedRight(t, t', p, w, b, q) && Tinted(t, t', map[w := false, p := true], map[])
    ensures p in t'.mem && Sibling(t', x, p, t'.mem[p].left) && t'.mem[p].right == x && !Red(t', x) &&
      !Red(t', t'.mem[p].left)
  {
    MirrorSibling(t, x, p, w);
    RotatedRightMirror(t, t', p, w, b, q);
    RedSibling(t.Mirror(), t'.Mirror(), x, p, w, b, q);
    MirrorSibling(t'.Mirror(), x, p, t'.mem[p].left);
    MirrorTwice(t');
  }

  lemma InnerNephewRight(t: State, t': State, x: Ref, p: Ref, w: Ref, y: Ref, b: Ref)
    requires Sibling(t, x, p, w) && !Red(t, x) && t.mem[p].left == x && !Red(t, w) && w in t.mem
    requires !Red(t, t.mem[w].right) && t.mem[w].left == y && Red(t, y)
    requires RotatedRight(t, t', w, y, b, p) && Tinted(t, t', map[y := false, w := true], map[])
    ensures p in t'.mem && Sibling(t', x, p, y) && t'.mem[p].left == x && !Red(t', x) && !Red(t', y) &&
      t'.mem[y].right == w && Red(t', w)
  {
    MirrorSibling(t, x, p, w);
    RotatedRightMirror(t, t', w, y, b, p);
    InnerNephew(t.Mirror(), t'.Mirror(), x, p, w, y, b);
    MirrorSibling(t'.Mirror(), x, p, y);
    MirrorTwice(t');
  }

  lemma OuterNephewRight(t: State, t': State, x: Ref, p: Ref, w: Ref, r: Ref, b: Ref, q: Ref)
    requires Sibling(t, x, p, w) && !Red(t, x) && t.mem[p].right == x && !Red(t, w) && w in t.mem
    requires t.mem[w].left == r && Red(t, r) && RotatedRight(t, t', p, w, b, q)
    requires Tinted(t, t', map[w := t.mem[p].red, p := false, r := false],
      map[w := t.spot[p].bh, p := t.spot[p].bh - 1])
    ensures Deleting(t', t'.root)
  {
    MirrorSibling(t, x, p, w);
    RotatedRightMirror(t, t', p, w, b, q);
    OuterNephew(t.Mirror(), t'.Mirror(), x, p, w, r, b, q);
    MirrorDeleting(t'.Mirror(), t'.root);
    MirrorTwice(t');
  }
}
