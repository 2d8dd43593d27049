/** Pointer structure of the red-black tree of nginx/src/core/ngx_rbtree.c.

    Node memory is a map from addresses to node records, so that aliasing, stale
    pointers and the one shared sentinel are all visible.  The ghost part of a state
    is the in-order sequence of the tree and, for every node, its coordinates:
    `pos` is its index in the in-order sequence and its subtree occupies exactly the
    indices `lo <= i < hi`.  With coordinates, "is a binary tree whose in-order walk
    is `order`" is a conjunction of facts about single nodes, and a rotation changes
    only a few of them. */
module RbLinks {

  type Ref = nat

  // ngx_rbtree_node_t; `str` stands for the bytes of the structure the node is embedded
  // in (the string of an ngx_str_node_t), which no tree operation writes.
  datatype Cell = Cell(key: nat, str: seq<nat>, left: Ref, right: Ref, parent: Ref, red: bool)

  // `bh` is the number of black nodes on every path below the node.
  datatype Spot = Spot(pos: int, lo: int, hi: int, bh: int)

  datatype State = State(mem: map<Ref, Cell>, root: Ref, nil: Ref, order: seq<Ref>, spot: map<Ref, Spot>) {

    ghost predicate LeftAt(n: Ref)
      requires n in mem && n in spot
    {
      var l := mem[n].left;
      if spot[n].lo == spot[n].pos then l == nil
      else l in mem && l in spot && spot[l].lo == spot[n].lo && spot[l].hi == spot[n].pos && mem[l].parent == n
    }

    ghost predicate RightAt(n: Ref)
      requires n in mem && n in spot
    {
      var r := mem[n].right;
      if spot[n].pos + 1 == spot[n].hi then r == nil
      else r in mem && r in spot && spot[r].lo == spot[n].pos + 1 && spot[r].hi == spot[n].hi && mem[r].parent == n
    }

    ghost predicate UpAt(n: Ref)
      requires n in mem
    {
      var p := mem[n].parent;
      n != root ==> p in mem && p in spot && (mem[p].left == n || mem[p].right == n)
    }

    // `n` hangs at the right place: its children split its interval around its position.
    ghost predicate At(n: Ref) {
      && n in mem && n in spot
      && 0 <= spot[n].lo <= spot[n].pos < spot[n].hi <= |order| && order[spot[n].pos] == n
      && LeftAt(n) && RightAt(n) && UpAt(n)
    }

    // The pointers form a binary tree whose in-order walk is `order`.  Nothing is said
    // of the root's own parent: a delete that replaces the root leaves it stale.
    ghost predicate Linked() {
      && nil in mem && nil !in spot
      && (forall i {:trigger order[i]} :: 0 <= i < |order| ==> order[i] in spot && spot[order[i]].pos == i)
      && (forall n {:trigger At(n)} :: n in spot ==> At(n))
      && (if order == [] then root == nil else root in spot && spot[root].lo == 0 && spot[root].hi == |order|)
    }

    // The state seen in a mirror: left and right exchanged, the walk reversed.
    ghost function Mirror(): State {
      State(map n | n in mem :: mem[n].(left := mem[n].right, right := mem[n].left), root, nil,
            seq(|order|, i requires 0 <= i < |order| => order[|order| - 1 - i]),
            map n | n in spot :: spot[n].(pos := |order| - 1 - spot[n].pos, lo := |order| - spot[n].hi,
              hi := |order| - spot[n].lo))
    }
  }

  // What a linked tree says of a node and its neighbours.
  lemma Neighbours(t: State, n: Ref)
    requires t.Linked() && n in t.spot
    ensures t.At(n)
    ensures var l := t.mem[n].left; l != t.nil ==> t.At(l) && l != t.root && l != n && l != t.mem[n].right
    ensures var r := t.mem[n].right; r != t.nil ==> t.At(r) && r != t.root && r != n
    ensures n != t.root ==> t.At(t.mem[n].parent) && t.mem[n].parent != n
  {
    assert t.At(n);
    assert t.mem[n].left != t.nil ==> t.At(t.mem[n].left);
    assert t.mem[n].right != t.nil ==> t.At(t.mem[n].right);
    assert n != t.root ==> t.At(t.mem[n].parent);
  }

  lemma MirrorAt(t: State, n: Ref)
    requires t.Linked() && n in t.spot
    ensures t.Mirror().At(n)
  {
    Neighbours(t, n);
  }

  lemma MirrorLinked(t: State)
    requires t.Linked()
    ensures t.Mirror().Linked()
  {
    var m := t.Mirror();
    forall n | n in m.spot ensures m.At(n) {
      MirrorAt(t, n);
    }
    if t.order != [] {
      assert t.At(t.root);
    }
  }

  lemma MirrorTwice(t: State)
    ensures t.Mirror().Mirror() == t
  {
    var u := t.Mirror().Mirror();
    assert u.mem == t.mem;
    assert u.spot == t.spot;
    assert u.order == t.order;
  }

  // What ngx_rbtree_left_rotate(x) does to memory, for x with right child y, y with
  // left child b, and x with parent p; the coordinates of x and y move with them.
  // Colours and black heights are left open, so that the relation also spans a recolouring.
  ghost predicate RotatedLeft(t: State, t': State, x: Ref, y: Ref, b: Ref, p: Ref) {
    && x in t.mem && y in t.mem && x in t.spot && y in t.spot
    && x != y && b != x && b != y && y != t.nil && x != t.nil
    && t.mem[x].right == y && t.mem[y].left == b && t.mem[x].parent == p
    && t'.mem.Keys == t.mem.Keys && t'.spot.Keys == t.spot.Keys && t'.order == t.order && t'.nil == t.nil
    && t'.root == (if x == t.root then y else t.root)
    && t'.mem[x] == t.mem[x].(right := b, parent := y, red := t'.mem[x].red)
    && t'.mem[y] == t.mem[y].(left := x, parent := p, red := t'.mem[y].red)
    && (b != t.nil ==> b in t.mem && t'.mem[b] == t.mem[b].(parent := x, red := t'.mem[b].red))
    && (x != t.root ==>
          && p != x && p != y && p != b && p in t.mem
          && t'.mem[p] == if t.mem[p].left == x then t.mem[p].(left := y, red := t'.mem[p].red)
                       else t.mem[p].(right := y, red := t'.mem[p].red))
    && (forall n {:trigger t'.mem[n]} ::
          n in t.mem && n != x && n != y && (n != b || b == t.nil) && (n != p || x == t.root) ==>
            t'.mem[n] == t.mem[n].(red := t'.mem[n].red))
    && t'.spot[x] == t.spot[x].(hi := t.spot[y].pos, bh := t'.spot[x].bh)
    && t'.spot[y] == t.spot[y].(lo := t.spot[x].lo, hi := t.spot[x].hi, bh := t'.spot[y].bh)
    && (forall n {:trigger t'.spot[n]} :: n in t.spot && n != x && n != y ==>
          t'.spot[n] == t.spot[n].(bh := t'.spot[n].bh))
  }

  lemma RotatedLeftAtX(t: State, t': State, x: Ref, y: Ref, b: Ref, p: Ref)
    requires t.Linked() && RotatedLeft(t, t', x, y, b, p)
    ensures t'.At(x) && t'.At(y)
  {
    Neighbours(t, x);
    Neighbours(t, y);
  }

  lemma RotatedLeftAtB(t: State, t': State, x: Ref, y: Ref, b: Ref, p: Ref)
    requires t.Linked() && RotatedLeft(t, t', x, y, b, p) && b != t.nil
    ensures t'.At(b)
  {
    Neighbours(t, x);
    Neighbours(t, y);
    Neighbours(t, b);
  }

  lemma RotatedLeftAtP(t: State, t': State, x: Ref, y: Ref, b: Ref, p: Ref)
    requires t.Linked() && RotatedLeft(t, t', x, y, b, p) && x != t.root
    ensures t'.At(p)
  {
    Neighbours(t, x);
    Neighbours(t, y);
    Neighbours(t, p);
  }

  lemma RotatedLeftAtRest(t: State, t': State, x: Ref, y: Ref, b: Ref, p: Ref, n: Ref)
    requires t.Linked() && RotatedLeft(t, t', x, y, b, p)
    requires n in t.spot && n != x && n != y && n != b && (n != p || x == t.root)
    ensures t'.At(n)
  {
    Neighbours(t, n);
    RotatedLeftBelow(t, t', x, y, b, p, n);
    RotatedLeftAbove(t, t', x, y, b, p, n);
  }

  lemma RotatedLeftBelow(t: State, t': State, x: Ref, y: Ref, b: Ref, p: Ref, n: Ref)
    requires t.Linked() && RotatedLeft(t, t', x, y, b, p) && t.At(n)
    requires n in t.spot && n != x && n != y && n != b && (n != p || x == t.root)
    ensures n in t'.mem && n in t'.spot && t'.LeftAt(n) && t'.RightAt(n)
  {
    Neighbours(t, n);
    Neighbours(t, x);
    Neighbours(t, y);
    if b != t.nil { Neighbours(t, b); }
  }

  lemma RotatedLeftAbove(t: State, t': State, x: Ref, y: Ref, b: Ref, p: Ref, n: Ref)
    requires t.Linked() && RotatedLeft(t, t', x, y, b, p) && t.At(n)
    requires n in t.spot && n != x && n != y && n != b && (n != p || x == t.root)
    ensures n in t'.mem && t'.UpAt(n)
  {
    Neighbours(t, n);
    Neighbours(t, x);
    Neighbours(t, y);
  }

  lemma RotatedLeftAt(t: State, t': State, x: Ref, y: Ref, b: Ref, p: Ref, n: Ref)
    requires t.Linked() && RotatedLeft(t, t', x, y, b, p) && n in t.spot
    ensures t'.At(n)
  {
    if n == x || n == y {
      RotatedLeftAtX(t, t', x, y, b, p);
    } else if n == b {
      RotatedLeftAtB(t, t', x, y, b, p);
    } else if n == p && x != t.root {
      RotatedLeftAtP(t, t', x, y, b, p);
    } else {
      RotatedLeftAtRest(t, t', x, y, b, p, n);
    }
  }

  lemma RotatedLeftLinked(t: State, t': State, x: Ref, y: Ref, b: Ref, p: Ref)
    requires t.Linked() && RotatedLeft(t, t', x, y, b, p)
    ensures t'.Linked()
  {
    forall n | n in t'.spot ensures t'.At(n) {
      RotatedLeftAt(t, t', x, y, b, p, n);
    }
    assert t.At(x);
  }

  // ngx_rbtree_right_rotate(x), for x with left child y, y with right child b.
  ghost predicate RotatedRight(t: State, t': State, x: Ref, y: Ref, b: Ref, p: Ref) {
    && x in t.mem && y in t.mem && x in t.spot && y in t.spot
    && x != y && b != x && b != y && y != t.nil && x != t.nil
    && t.mem[x].left == y && t.mem[y].right == b && t.mem[x].parent == p
    && t'.mem.Keys == t.mem.Keys && t'.spot.Keys == t.spot.Keys && t'.order == t.order && t'.nil == t.nil
    && t'.root == (if x == t.root then y else t.root)
    && t'.mem[x] == t.mem[x].(left := b, parent := y, red := t'.mem[x].red)
    && t'.mem[y] == t.mem[y].(right := x, parent := p, red := t'.mem[y].red)
    && (b != t.nil ==> b in t.mem && t'.mem[b] == t.mem[b].(parent := x, red := t'.mem[b].red))
    && (x != t.root ==>
          && p != x && p != y && p != b && p in t.mem
          && t'.mem[p] == if t.mem[p].right == x then t.mem[p].(right := y, red := t'.mem[p].red)
                       else t.mem[p].(left := y, red := t'.mem[p].red))
    && (forall n {:trigger t'.mem[n]} ::
          n in t.mem && n != x && n != y && (n != b || b == t.nil) && (n != p || x == t.root) ==>
            t'.mem[n] == t.mem[n].(red := t'.mem[n].red))
    && t'.spot[x] == t.spot[x].(lo := t.spot[y].pos + 1, bh := t'.spot[x].bh)
    && t'.spot[y] == t.spot[y].(lo := t.spot[x].lo, hi := t.spot[x].hi, bh := t'.spot[y].bh)
    && (forall n {:trigger t'.spot[n]} :: n in t.spot && n != x && n != y ==>
          t'.spot[n] == t.spot[n].(bh := t'.spot[n].bh))
  }

  lemma RotatedRightMirror(t: State, t': State, x: Ref, y: Ref, b: Ref, p: Ref)
    requires t.Linked() && RotatedRight(t, t', x, y, b, p)
    ensures RotatedLeft(t.Mirror(), t'.Mirror(), x, y, b, p)
  {
    MirrorSpots(t, t', x, y, b, p);
    MirrorParent(t, t', x, y, b, p);
    var u, u' := t.Mirror(), t'.Mirror();
    assert forall n {:trigger u'.mem[n]} ::
      n in t.mem && n != x && n != y && (n != b || b == t.nil) && (n != p || x == t.root) ==>
        u'.mem[n] == u.mem[n].(red := u'.mem[n].red);
  }

  lemma MirrorSpots(t: State, t': State, x: Ref, y: Ref, b: Ref, p: Ref)
    requires t.Linked() && RotatedRight(t, t', x, y, b, p)
    ensures var u, u' := t.Mirror(), t'.Mirror();
            && u'.spot.Keys == u.spot.Keys && x in u.spot && y in u.spot
            && u'.spot[x] == u.spot[x].(hi := u.spot[y].pos, bh := u'.spot[x].bh)
            && u'.spot[y] == u.spot[y].(lo := u.spot[x].lo, hi := u.spot[x].hi, bh := u'.spot[y].bh)
            && forall n {:trigger u'.spot[n]} :: n in u.spot && n != x && n != y ==>
               u'.spot[n] == u.spot[n].(bh := u'.spot[n].bh)
  {}

  lemma MirrorParent(t: State, t': State, x: Ref, y: Ref, b: Ref, p: Ref)
    requires t.Linked() && RotatedRight(t, t', x, y, b, p)
    ensures var u, u' := t.Mirror(), t'.Mirror();
            x != u.root ==>
              && p in u.mem && p in u'.mem
              && u'.mem[p] == if u.mem[p].left == x then u.mem[p].(left := y, red := u'.mem[p].red)
                 else u.mem[p].(right := y, red := u'.mem[p].red)
  {
    if x != t.root { Neighbours(t, x); Neighbours(t, p); }
  }

  lemma RotatedRightLinked(t: State, t': State, x: Ref, y: Ref, b: Ref, p: Ref)
    requires t.Linked() && RotatedRight(t, t', x, y, b, p)
    ensures t'.Linked()
  {
    RotatedRightMirror(t, t', x, y, b, p);
    MirrorLinked(t);
    RotatedLeftLinked(t.Mirror(), t'.Mirror(), x, y, b, p);
    MirrorLinked(t'.Mirror());
    MirrorTwice(t');
  }

  // The new node n is hung as a red leaf under q, before q in the walk.
  ghost predicate AttachedLeft(t: State, t': State, n: Ref, q: Ref) {
    && n in t.mem && n !in t.spot && n != t.nil && q in t.mem && q in t.spot && t.mem[q].left == t.nil
    && var k := t.spot[q].pos;
    && 0 <= k < |t.order|
    && t'.mem.Keys == t.mem.Keys && t'.spot.Keys == t.spot.Keys + {n} && t'.nil == t.nil && t'.root == t.root
    && t'.order == t.order[..k] + [n] + t.order[k..]
    && t'.mem[q] == t.mem[q].(left := n)
    && t'.mem[n] == t.mem[n].(left := t.nil, right := t.nil, parent := q, red := true)
    && (forall m {:trigger t'.mem[m]} :: m in t.mem && m != q && m != n ==> t'.mem[m] == t.mem[m])
    && t'.spot[n] == Spot(k, k, k + 1, 0)
    && (forall m {:trigger t'.spot[m]} :: m in t.spot ==>
          t'.spot[m] == Spot(if t.spot[m].pos >= k then t.spot[m].pos + 1 else t.spot[m].pos,
                             if t.spot[m].lo > k then t.spot[m].lo + 1 else t.spot[m].lo,
                             if t.spot[m].hi > k then t.spot[m].hi + 1 else t.spot[m].hi, t.spot[m].bh))
  }

  lemma AttachedLeftAtNew(t: State, t': State, n: Ref, q: Ref)
    requires t.Linked() && AttachedLeft(t, t', n, q)
    ensures t'.At(n) && t'.At(q)
  {
    Neighbours(t, q);
  }

  lemma AttachedLeftOrder(t: State, t': State, n: Ref, q: Ref, m: Ref)
    requires t.Linked() && AttachedLeft(t, t', n, q) && m in t.spot && m != q
    ensures m in t.mem && t.spot[m].pos != t.spot[q].pos
    ensures 0 <= t'.spot[m].lo <= t'.spot[m].pos < t'.spot[m].hi <= |t'.order| && t'.order[t'.spot[m].pos] == m
  {
    assert t.At(q);
    assert t.At(m);
  }

  lemma AttachedLeftBelow(t: State, t': State, n: Ref, q: Ref, m: Ref)
    requires t.Linked() && AttachedLeft(t, t', n, q) && m in t.spot && m != q
    ensures m in t'.mem && t'.LeftAt(m) && t'.RightAt(m)
  {
    AttachedLeftOrder(t, t', n, q, m);
    assert t.At(m);
    var l, r := t.mem[m].left, t.mem[m].right;
    assert t'.mem[m] == t.mem[m];
    assert l != t.nil ==> t.At(l) && t'.mem[l].parent == t.mem[l].parent;
    assert r != t.nil ==> t.At(r) && t'.mem[r].parent == t.mem[r].parent;
  }

  lemma AttachedLeftAtRest(t: State, t': State, n: Ref, q: Ref, m: Ref)
    requires t.Linked() && AttachedLeft(t, t', n, q) && m in t.spot && m != q
    ensures t'.At(m)
  {
    AttachedLeftOrder(t, t', n, q, m);
    AttachedLeftBelow(t, t', n, q, m);
    assert t.At(m);
    assert t'.mem[m] == t.mem[m];
    assert m != t.root ==> t.At(t.mem[m].parent);
  }

  lemma AttachedLeftLinked(t: State, t': State, n: Ref, q: Ref)
    requires t.Linked() && AttachedLeft(t, t', n, q)
    ensures t'.Linked()
  {
    forall m | m in t'.spot ensures t'.At(m) {
      if m == n || m == q {
        AttachedLeftAtNew(t, t', n, q);
      } else {
        AttachedLeftAtRest(t, t', n, q, m);
      }
    }
    AttachedLeftWalk(t, t', n, q);
    assert t.At(t.root);
  }

  lemma AttachedLeftWalk(t: State, t': State, n: Ref, q: Ref)
    requires t.Linked() && AttachedLeft(t, t', n, q)
    ensures forall i {:trigger t'.order[i]} :: 0 <= i < |t'.order| ==>
      t'.order[i] in t'.spot && t'.spot[t'.order[i]].pos == i
  {
    var k := t.spot[q].pos;
    forall i | 0 <= i < |t'.order| ensures t'.order[i] in t'.spot && t'.spot[t'.order[i]].pos == i {
      assert t'.order[i] == if i < k then t.order[i] else if i == k then n else t.order[i - 1];
    }
  }

  // ... or after q in the walk.
  ghost predicate AttachedRight(t: State, t': State, n: Ref, q: Ref) {
    && n in t.mem && n !in t.spot && n != t.nil && q in t.mem && q in t.spot && t.mem[q].right == t.nil
    && var k := t.spot[q].pos + 1;
    && 0 <= k <= |t.order|
    && t'.mem.Keys == t.mem.Keys && t'.spot.Keys == t.spot.Keys + {n} && t'.nil == t.nil && t'.root == t.root
    && t'.order == t.order[..k] + [n] + t.order[k..]
    && t'.mem[q] == t.mem[q].(right := n)
    && t'.mem[n] == t.mem[n].(left := t.nil, right := t.nil, parent := q, red := true)
    && (forall m {:trigger t'.mem[m]} :: m in t.mem && m != q && m != n ==> t'.mem[m] == t.mem[m])
    && t'.spot[n] == Spot(k, k, k + 1, 0)
    && (forall m {:trigger t'.spot[m]} :: m in t.spot ==>
          t'.spot[m] == Spot(if t.spot[m].pos >= k then t.spot[m].pos + 1 else t.spot[m].pos,
                             if t.spot[m].lo >= k then t.spot[m].lo + 1 else t.spot[m].lo,
                             if t.spot[m].hi >= k then t.spot[m].hi + 1 else t.spot[m].hi, t.spot[m].bh))
  }

  lemma AttachedRightMirror(t: State, t': State, n: Ref, q: Ref)
    requires t.Linked() && AttachedRight(t, t', n, q)
    ensures AttachedLeft(t.Mirror(), t'.Mirror(), n, q)
  {
    assert t.At(q);
    AttachedRightWalk(t, t', n, q);
    AttachedRightSpots(t, t', n, q);
  }

  lemma AttachedRightSpots(t: State, t': State, n: Ref, q: Ref)
    requires t.At(q) && AttachedRight(t, t', n, q)
    ensures var u, v := t.Mirror(), t'.Mirror();
      && q in u.spot && v.spot.Keys == u.spot.Keys + {n}
      && v.spot[n] == Spot(u.spot[q].pos, u.spot[q].pos, u.spot[q].pos + 1, 0)
      && forall m {:trigger v.spot[m]} :: m in u.spot ==>
           v.spot[m] == Spot(if u.spot[m].pos >= u.spot[q].pos then u.spot[m].pos + 1 else u.spot[m].pos,
                             if u.spot[m].lo > u.spot[q].pos then u.spot[m].lo + 1 else u.spot[m].lo,
                             if u.spot[m].hi > u.spot[q].pos then u.spot[m].hi + 1 else u.spot[m].hi, u.spot[m].bh)
  {}

  lemma AttachedRightWalk(t: State, t': State, n: Ref, q: Ref)
    requires t.At(q) && AttachedRight(t, t', n, q)
    ensures q in t.Mirror().spot && var u, k := t.Mirror(), t.Mirror().spot[q].pos;
      0 <= k <= |u.order| && t'.Mirror().order == u.order[..k] + [n] + u.order[k..]
  {}

  function Drop(k: int, i: int): int {
    if i > k then i - 1 else i
  }

  // The node s, one of whose children is the sentinel and the other c, leaves the tree and c takes its place;
  // its own record is free to change.
  ghost predicate Spliced(t: State, t': State, s: Ref, c: Ref, p: Ref) {
    && s in t.mem && s in t.spot && s != t.nil && c in t.mem && c != s && t.mem[s].parent == p
    && ((t.mem[s].left == t.nil && t.mem[s].right == c) || (t.mem[s].right == t.nil && t.mem[s].left == c))
    && var k := t.spot[s].pos;
    && 0 <= k < |t.order|
    && t'.mem.Keys == t.mem.Keys && t'.spot.Keys == t.spot.Keys - {s} && t'.nil == t.nil
    && t'.root == (if s == t.root then c else t.root)
    && t'.order == t.order[..k] + t.order[k + 1..]
    && (s == t.root ==> forall m {:trigger t'.mem[m]} :: m in t.mem && m != s ==> t'.mem[m] == t.mem[m])
    && (s != t.root ==>
          && p in t.mem && p != s && p != c
          && t'.mem[p] == (if t.mem[p].left == s then t.mem[p].(left := c) else t.mem[p].(right := c))
          && t'.mem[c] == t.mem[c].(parent := p)
          && (forall m {:trigger t'.mem[m]} :: m in t.mem && m != p && m != c && m != s ==> t'.mem[m] == t.mem[m]))
    && (forall m {:trigger t'.spot[m]} :: m in t'.spot ==>
          t'.spot[m] == Spot(Drop(k, t.spot[m].pos), Drop(k, t.spot[m].lo), Drop(k, t.spot[m].hi), t.spot[m].bh))
  }

  lemma SplicedOrder(t: State, t': State, s: Ref, c: Ref, p: Ref, m: Ref)
    requires t.Linked() && Spliced(t, t', s, c, p) && m in t'.spot
    ensures m in t.mem && t.spot[m].pos != t.spot[s].pos
    ensures 0 <= t'.spot[m].lo <= t'.spot[m].pos < t'.spot[m].hi <= |t'.order| && t'.order[t'.spot[m].pos] == m
  {
    assert t.At(s);
    assert t.At(m);
  }

  lemma SplicedAtParent(t: State, t': State, s: Ref, c: Ref, p: Ref)
    requires t.Linked() && Spliced(t, t', s, c, p) && s != t.root
    ensures t'.At(p)
  {
    Neighbours(t, s);
    Neighbours(t, p);
    SplicedOrder(t, t', s, c, p, p);
    SplicedUnderParent(t, t', s, c, p);
    assert p != t.root ==> t.mem[p].parent != s && t.mem[p].parent != c;
  }

  lemma SplicedUnderParent(t: State, t': State, s: Ref, c: Ref, p: Ref)
    requires t.Linked() && Spliced(t, t', s, c, p) && s != t.root
    ensures p in t'.mem && p in t'.spot && t'.LeftAt(p) && t'.RightAt(p)
  {
    Neighbours(t, s);
    SplicedLeftOfParent(t, t', s, c, p);
    SplicedRightOfParent(t, t', s, c, p);
  }

  lemma SplicedLeftOfParent(t: State, t': State, s: Ref, c: Ref, p: Ref)
    requires t.Linked() && Spliced(t, t', s, c, p) && s != t.root && t.At(p)
    ensures t'.LeftAt(p)
  {
    Neighbours(t, s);
    Neighbours(t, p);
  }

  lemma SplicedRightOfParent(t: State, t': State, s: Ref, c: Ref, p: Ref)
    requires t.Linked() && Spliced(t, t', s, c, p) && s != t.root && t.At(p)
    ensures t'.RightAt(p)
  {
    Neighbours(t, s);
    Neighbours(t, p);
  }

  lemma SplicedAtChild(t: State, t': State, s: Ref, c: Ref, p: Ref)
    requires t.Linked() && Spliced(t, t', s, c, p) && c != t.nil
    ensures t'.At(c)
  {
    Neighbours(t, s);
    SplicedOrder(t, t', s, c, p, c);
    SplicedLeftOfChild(t, t', s, c, p);
    SplicedRightOfChild(t, t', s, c, p);
  }

  lemma SplicedLeftOfChild(t: State, t': State, s: Ref, c: Ref, p: Ref)
    requires t.Linked() && Spliced(t, t', s, c, p) && c != t.nil && t.At(c)
    ensures c in t'.mem && c in t'.spot && t'.LeftAt(c)
  {
    Neighbours(t, s);
    Neighbours(t, c);
  }

  lemma SplicedRightOfChild(t: State, t': State, s: Ref, c: Ref, p: Ref)
    requires t.Linked() && Spliced(t, t', s, c, p) && c != t.nil && t.At(c)
    ensures c in t'.mem && c in t'.spot && t'.RightAt(c)
  {
    Neighbours(t, s);
    Neighbours(t, c);
  }

  lemma SplicedBelow(t: State, t': State, s: Ref, c: Ref, p: Ref, m: Ref)
    requires t.Linked() && Spliced(t, t', s, c, p)
    requires m in t'.spot && (m != p || s == t.root) && m != c
    ensures m in t'.mem && t'.LeftAt(m) && t'.RightAt(m)
  {
    SplicedBelowLeft(t, t', s, c, p, m);
    SplicedBelowRight(t, t', s, c, p, m);
  }

  lemma SplicedBelowLeft(t: State, t': State, s: Ref, c: Ref, p: Ref, m: Ref)
    requires t.Linked() && Spliced(t, t', s, c, p)
    requires m in t'.spot && (m != p || s == t.root) && m != c
    ensures m in t'.mem && t'.LeftAt(m)
  {
    SplicedOrder(t, t', s, c, p, m);
    Neighbours(t, s);
    assert t.At(m);
    var l := t.mem[m].left;
    assert t'.mem[m] == t.mem[m];
    assert l != t.nil ==> t.At(l) && l != s && l != c;
  }

  lemma SplicedBelowRight(t: State, t': State, s: Ref, c: Ref, p: Ref, m: Ref)
    requires t.Linked() && Spliced(t, t', s, c, p)
    requires m in t'.spot && (m != p || s == t.root) && m != c
    ensures m in t'.mem && t'.RightAt(m)
  {
    SplicedOrder(t, t', s, c, p, m);
    Neighbours(t, s);
    assert t.At(m);
    var r := t.mem[m].right;
    assert t'.mem[m] == t.mem[m];
    assert r != t.nil ==> t.At(r) && r != s && r != c;
  }

  lemma SplicedAtRest(t: State, t': State, s: Ref, c: Ref, p: Ref, m: Ref)
    requires t.Linked() && Spliced(t, t', s, c, p)
    requires m in t'.spot && (m != p || s == t.root) && m != c
    ensures t'.At(m)
  {
    SplicedOrder(t, t', s, c, p, m);
    SplicedBelow(t, t', s, c, p, m);
    Neighbours(t, s);
    assert t.At(m);
    assert t'.mem[m] == t.mem[m];
    if m != t.root {
      assert t.At(t.mem[m].parent);
      assert t.mem[m].parent != s;
    }
  }

  lemma SplicedLinked(t: State, t': State, s: Ref, c: Ref, p: Ref)
    requires t.Linked() && Spliced(t, t', s, c, p)
    ensures t'.Linked()
  {
    forall m | m in t'.spot ensures t'.At(m) {
      if m == p && s != t.root {
        SplicedAtParent(t, t', s, c, p);
      } else if m == c {
        SplicedAtChild(t, t', s, c, p);
      } else {
        SplicedAtRest(t, t', s, c, p, m);
      }
    }
    SplicedWalk(t, t', s, c, p);
    SplicedRoot(t, t', s, c, p);
  }

  lemma SplicedRoot(t: State, t': State, s: Ref, c: Ref, p: Ref)
    requires t.Linked() && Spliced(t, t', s, c, p)
    ensures if t'.order == [] then t'.root == t'.nil
      else t'.root in t'.spot && t'.spot[t'.root].lo == 0 && t'.spot[t'.root].hi == |t'.order|
  {
    Neighbours(t, s);
    assert t.At(t.root);
  }

  lemma SplicedWalk(t: State, t': State, s: Ref, c: Ref, p: Ref)
    requires t.Linked() && Spliced(t, t', s, c, p)
    ensures forall i :: 0 <= i < |t'.order| ==> t'.order[i] in t'.spot && t'.spot[t'.order[i]].pos == i
  {
    assert t.At(s);
    var k := t.spot[s].pos;
    forall i | 0 <= i < |t'.order| ensures t'.order[i] in t'.spot && t'.spot[t'.order[i]].pos == i {
      assert t'.order[i] == if i < k then t.order[i] else t.order[i + 1];
    }
  }

  // The node b takes the place of a; a is no longer in the tree and its record is free to change.
  ghost predicate Renamed(t: State, t': State, a: Ref, b: Ref) {
    && a in t.mem && a in t.spot && b in t.mem && b !in t.spot && b != t.nil
    && 0 <= t.spot[a].pos < |t.order|
    && t'.mem.Keys == t.mem.Keys && t'.spot.Keys == t.spot.Keys - {a} + {b} && t'.nil == t.nil
    && t'.root == (if a == t.root then b else t.root)
    && t'.order == t.order[t.spot[a].pos := b]
    && t'.mem[b].left == t.mem[a].left && t'.mem[b].right == t.mem[a].right && t'.mem[b].parent == t.mem[a].parent
    && t'.mem[b].red == t.mem[a].red
    && (forall m {:trigger t'.mem[m]} :: m in t.mem && m != a && m != b ==>
          && t'.mem[m].red == t.mem[m].red
          && (m in t.spot ==>
                && t'.mem[m].left == (if t.mem[m].left == a then b else t.mem[m].left)
                && t'.mem[m].right == (if t.mem[m].right == a then b else t.mem[m].right)
                && t'.mem[m].parent == (if t.mem[m].parent == a && m != t.root then b else t.mem[m].parent)))
    && t'.spot[b] == t.spot[a]
    && (forall m {:trigger t'.spot[m]} :: m in t.spot && m != a ==> t'.spot[m] == t.spot[m])
  }

  lemma RenamedAtNew(t: State, t': State, a: Ref, b: Ref)
    requires t.Linked() && Renamed(t, t', a, b)
    ensures t'.At(b)
  {
    Neighbours(t, a);
  }

  lemma RenamedAtRest(t: State, t': State, a: Ref, b: Ref, m: Ref)
    requires t.Linked() && Renamed(t, t', a, b) && m in t.spot && m != a
    ensures t'.At(m)
  {
    Neighbours(t, m);
    Neighbours(t, a);
  }

  lemma RenamedLinked(t: State, t': State, a: Ref, b: Ref)
    requires t.Linked() && Renamed(t, t', a, b)
    ensures t'.Linked()
  {
    forall m | m in t'.spot ensures t'.At(m) {
      if m == b { RenamedAtNew(t, t', a, b); } else { RenamedAtRest(t, t', a, b, m); }
    }
    RenamedOrder(t, t', a, b);
  }

  lemma RenamedOrder(t: State, t': State, a: Ref, b: Ref)
    requires t.Linked() && Renamed(t, t', a, b)
    ensures forall i {:trigger t'.order[i]} :: 0 <= i < |t'.order| ==>
      t'.order[i] in t'.spot && t'.spot[t'.order[i]].pos == i
  {
    assert t.At(a);
    forall i | 0 <= i < |t'.order| ensures t'.order[i] in t'.spot && t'.spot[t'.order[i]].pos == i {
      assert t.order[i] in t.spot;
    }
  }
}
