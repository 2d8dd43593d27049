/** The writes by which ngx_rbtree_delete takes a node out of the binary tree, before
    any recolouring: the node itself or its in-order successor is spliced out, and in
    the second case the successor then takes the place of the deleted node. */
module RbUnlink {
  import opened RbLinks
  import opened RbColour

  // In-order successor of a node with two children.
  ghost predicate Successor(t: State, node: Ref, s: Ref) {
    && node in t.spot && node in t.mem && s in t.spot && s in t.mem
    && t.mem[node].left != t.nil && t.mem[node].right != t.nil
    && t.mem[s].left == t.nil && t.spot[s].pos == t.spot[node].pos + 1
  }

  lemma SuccessorBelow(t: State, node: Ref, s: Ref)
    requires t.Linked() && Successor(t, node, s)
    ensures t.At(node) && t.At(s) && s != t.root && t.At(t.mem[s].parent) && t.mem[s].parent != s
    ensures s != node && t.spot[s].lo == t.spot[s].pos && t.spot[s].hi <= t.spot[node].hi
  {
    Neighbours(t, node);
    Neighbours(t, s);
    Inside(t, node, s);
  }

  // A node positioned inside the interval of another lies below it.
  lemma {:induction false} Inside(t: State, a: Ref, n: Ref)
    requires t.Linked() && a in t.spot && n in t.spot && t.spot[a].lo <= t.spot[n].pos < t.spot[a].hi
    ensures t.At(a) && t.At(n)
    ensures t.spot[a].lo <= t.spot[n].lo && t.spot[n].hi <= t.spot[a].hi
    ensures n != a ==> n != t.root
    decreases t.spot[a].hi - t.spot[a].lo
  {
    Neighbours(t, a);
    assert t.At(n);
    if t.spot[n].pos < t.spot[a].pos {
      Inside(t, t.mem[a].left, n);
    } else if t.spot[n].pos > t.spot[a].pos {
      Inside(t, t.mem[a].right, n);
    }
  }

  ghost function Remove(order: seq<Ref>, k: int): seq<Ref>
    requires 0 <= k < |order|
  {
    order[..k] + order[k + 1..]
  }

  // The state after s is spliced out.
  ghost function SpliceState(t: State, s: Ref, c: Ref, p: Ref): State
    requires s in t.spot && s in t.mem && 0 <= t.spot[s].pos < |t.order| && c in t.mem && p in t.mem
  {
    var k := t.spot[s].pos;
    var m1 := t.mem[p := if t.mem[p].left == s then t.mem[p].(left := c) else t.mem[p].(right := c)];
    State(m1[c := m1[c].(parent := p)], t.root, t.nil, Remove(t.order, k),
          map m | m in t.spot && m != s :: Spot(Drop(k, t.spot[m].pos), Drop(k, t.spot[m].lo),
            Drop(k, t.spot[m].hi), t.spot[m].bh))
  }

  lemma SpliceStateSpliced(t: State, s: Ref, c: Ref, p: Ref)
    requires t.Linked() && s in t.spot && s in t.mem && s != t.root && t.mem[s].parent == p && c in t.mem
    requires (t.mem[s].left == t.nil && t.mem[s].right == c) || (t.mem[s].right == t.nil && t.mem[s].left == c)
    ensures t.At(s) && t.At(p) && Spliced(t, SpliceState(t, s, c, p), s, c, p)
  {
    Neighbours(t, s);
    Neighbours(t, p);
  }

  // The writes that splice out the successor s of node.
  ghost function SpliceWrites(m: map<Ref, Cell>, node: Ref, s: Ref, c: Ref, p: Ref): map<Ref, Cell>
    requires c in m && p in m
  {
    var m1 := m[p := if m[p].left == s then m[p].(left := c) else m[p].(right := c)];
    m1[c := m1[c].(parent := if p == node then s else p)]
  }

  ghost predicate PlaceApart(m: map<Ref, Cell>, node: Ref, s: Ref, isRoot: bool) {
    && node in m && s in m && m[node].left in m && m[node].right in m
    && node != s && m[node].left != s && m[node].right != s && m[node].left != node
    && m[node].left != m[node].right
    && (!isRoot ==> m[node].parent in m && m[node].parent != s && m[node].parent != node)
  }

  // The writes that give s the links and colour of node and redirect the pointers to node.
  ghost function CopyWrites(m: map<Ref, Cell>, node: Ref, s: Ref, isRoot: bool): map<Ref, Cell>
    requires PlaceApart(m, node, s, isRoot)
  {
    var q := m[node].parent;
    var m3 := m[s := m[s].(left := m[node].left, right := m[node].right, parent := q, red := m[node].red)];
    if isRoot then m3 else m3[q := if m3[q].left == node then m3[q].(left := s) else m3[q].(right := s)]
  }

  ghost function AdoptWrites(m: map<Ref, Cell>, nil: Ref, s: Ref): map<Ref, Cell>
    requires s in m && m[s].left in m && m[s].right in m && m[s].left != s && m[s].right != s
  {
    var l, r := m[s].left, m[s].right;
    var m5 := if l != nil then m[l := m[l].(parent := s)] else m;
    if r != nil then m5[r := m5[r].(parent := s)] else m5
  }

  ghost function PlaceWrites(m: map<Ref, Cell>, nil: Ref, node: Ref, s: Ref, isRoot: bool): map<Ref, Cell>
    requires PlaceApart(m, node, s, isRoot)
  {
    AdoptWrites(CopyWrites(m, node, s, isRoot), nil, s)
  }

  ghost function SubstWrites(t: State, node: Ref, s: Ref, c: Ref, p: Ref): map<Ref, Cell>
    requires Apart(t, node, s, c, p)
  {
    PlaceWrites(SpliceWrites(t.mem, node, s, c, p), t.nil, node, s, node == t.root)
  }

  ghost predicate Apart(t: State, node: Ref, s: Ref, c: Ref, p: Ref) {
    && t.At(node) && t.At(s) && t.At(p) && c in t.mem
    && s != t.root && t.mem[s].parent == p && t.mem[s].left == t.nil && t.mem[s].right == c
    && node != s && c != s && c != node && p != s && p != c && s != t.nil && node != t.nil && p != t.nil
    && var l, r, q := t.mem[node].left, t.mem[node].right, t.mem[node].parent;
    && t.At(l) && t.At(r) && l != r && l != node && r != node && l != t.nil && r != t.nil && l != s && l != c &&
       l != p && r != c
    && t.mem[l].parent == node && t.mem[r].parent == node
    && (p == node <==> r == s)
    && (node != t.root ==> t.At(q) && q != node && q != s && q != c && q != p && q != l && q != r && q != t.nil)
  }

  lemma SubstApart(t: State, node: Ref, s: Ref, c: Ref, p: Ref)
    requires t.Linked() && Successor(t, node, s) && t.mem[s].parent == p && t.mem[s].right == c
    ensures Apart(t, node, s, c, p)
  {
    SuccessorBelow(t, node, s);
    Neighbours(t, node);
    Neighbours(t, s);
    Neighbours(t, p);
    Inside(t, t.mem[node].right, s);
    SubstApartUp(t, node, s, c, p);
  }

  lemma SubstApartUp(t: State, node: Ref, s: Ref, c: Ref, p: Ref)
    requires t.Linked() && Successor(t, node, s) && t.mem[s].parent == p && t.mem[s].right == c
    ensures var l, r, q := t.mem[node].left, t.mem[node].right, t.mem[node].parent;
      node != t.root ==> t.At(q) && q != node && q != s && q != c && q != p && q != l && q != r && q != t.nil
  {
    SuccessorBelow(t, node, s);
    Neighbours(t, node);
    Neighbours(t, s);
    assert node != t.root ==> t.At(t.mem[node].parent);
    assert t.At(p);
  }

  ghost function Rename(a: Ref, b: Ref, x: Ref): Ref {
    if x == a then b else x
  }

  // The record of the successor after the writes.
  lemma SubstOwnCell(t: State, node: Ref, s: Ref, c: Ref, p: Ref)
    requires t.Linked() && Apart(t, node, s, c, p)
    ensures var m, t1 := SubstWrites(t, node, s, c, p), SpliceState(t, s, c, p);
      && m.Keys == t.mem.Keys
      && m[s] == t.mem[s].(left := t1.mem[node].left, right := t1.mem[node].right, parent := t1.mem[node].parent,
         red := t1.mem[node].red)
  {
  }

  // The writes, cell by cell: the parent of node gets s as child, the children of node get s as parent.
  lemma AdoptKeeps(m: map<Ref, Cell>, nil: Ref, s: Ref, x: Ref)
    requires s in m && m[s].left in m && m[s].right in m && m[s].left != s && m[s].right != s && x in m
    ensures var m' := AdoptWrites(m, nil, s); x in m' && m'[x] == m[x].(parent := m'[x].parent)
  {
  }

  lemma AdoptParent(m: map<Ref, Cell>, nil: Ref, s: Ref, x: Ref)
    requires s in m && m[s].left in m && m[s].right in m && m[s].left != s && m[s].right != s && x in m
    ensures var m' := AdoptWrites(m, nil, s);
      x in m' && m'[x].parent == if x != nil && (x == m[s].left || x == m[s].right) then s else m[x].parent
  {
  }

  lemma CopyOwn(m: map<Ref, Cell>, node: Ref, s: Ref, isRoot: bool)
    requires PlaceApart(m, node, s, isRoot)
    ensures var m' := CopyWrites(m, node, s, isRoot);
      && m'.Keys == m.Keys && m'[s].left == m[node].left && m'[s].right == m[node].right
  {
  }

  lemma CopyKeeps(m: map<Ref, Cell>, node: Ref, s: Ref, isRoot: bool, x: Ref)
    requires PlaceApart(m, node, s, isRoot) && x in m && x != s
    ensures var m', q := CopyWrites(m, node, s, isRoot), m[node].parent;
      && x in m' && m'[x].red == m[x].red && m'[x].key == m[x].key && m'[x].str == m[x].str &&
         m'[x].parent == m[x].parent
      && m'[x].left == (if !isRoot && x == q && m[q].left == node then s else m[x].left)
      && m'[x].right == (if !isRoot && x == q && m[q].left != node then s else m[x].right)
  {
  }

  lemma SubstFinal(t: State, node: Ref, s: Ref, c: Ref, p: Ref, x: Ref)
    requires Apart(t, node, s, c, p) && x in t.mem && x != node && x != s
    ensures var m, t1 := SubstWrites(t, node, s, c, p), SpliceState(t, s, c, p);
      var q, up := t.mem[node].parent, node != t.root && x == t.mem[node].parent;
      && x in m && x in t1.mem && m[x].red == t1.mem[x].red == t.mem[x].red && m[x].key == t.mem[x].key &&
         m[x].str == t.mem[x].str
      && m[x].left == (if up && t.mem[q].left == node then s else t1.mem[x].left)
      && m[x].right == (if up && t.mem[q].left != node then s else t1.mem[x].right)
  {
    var m2 := SpliceWrites(t.mem, node, s, c, p);
    CopyKeeps(m2, node, s, node == t.root, x);
    AdoptKeeps(CopyWrites(m2, node, s, node == t.root), t.nil, s, x);
  }

  lemma SubstFinalParent(t: State, node: Ref, s: Ref, c: Ref, p: Ref, x: Ref)
    requires Apart(t, node, s, c, p) && x in t.mem && x != node && x != s
    ensures var m, t1 := SubstWrites(t, node, s, c, p), SpliceState(t, s, c, p);
      && x in m && x in t1.mem
      && m[x].parent == (if x == t.mem[node].left ||
         (x != t.nil && x == if p == node then c else t.mem[node].right) then s
                         else if x == c && p == node then s else t1.mem[x].parent)
  {
    var m2 := SpliceWrites(t.mem, node, s, c, p);
    var m3 := CopyWrites(m2, node, s, node == t.root);
    CopyKeeps(m2, node, s, node == t.root, x);
    CopyOwn(m2, node, s, node == t.root);
    AdoptParent(m3, t.nil, s, x);
  }

  // The records of the other nodes: whatever pointed to node points to s.
  lemma SubstCell(t: State, node: Ref, s: Ref, c: Ref, p: Ref, x: Ref)
    requires t.Linked() && Apart(t, node, s, c, p) && x in t.spot && x != node && x != s
    ensures var m, t1 := SubstWrites(t, node, s, c, p), SpliceState(t, s, c, p);
      && x in m && x in t1.mem && m[x].red == t1.mem[x].red == t.mem[x].red && m[x].key == t.mem[x].key &&
         m[x].str == t.mem[x].str
      && m[x].left == Rename(node, s, t1.mem[x].left) && m[x].right == Rename(node, s, t1.mem[x].right)
      && (x != t.root ==> m[x].parent == Rename(node, s, t1.mem[x].parent))
      && (x == t.root ==> m[x].parent == t1.mem[x].parent)
  {
    Neighbours(t, x);
    SubstFinal(t, node, s, c, p, x);
    SubstFinalParent(t, node, s, c, p, x);
    SpliceFinal(t, node, s, c, p, x);
  }

  // What still points to node once s is spliced out.
  lemma SpliceFinal(t: State, node: Ref, s: Ref, c: Ref, p: Ref, x: Ref)
    requires t.Linked() && Apart(t, node, s, c, p) && x in t.spot && x != node && x != s && t.At(x)
    ensures var t1 := SpliceState(t, s, c, p);
      && (t1.mem[x].left == node <==> t.mem[x].left == node)
      && (t1.mem[x].right == node <==> t.mem[x].right == node)
      && (t.mem[x].left == node || t.mem[x].right == node ==>
         node != t.root && x == t.mem[node].parent && t.mem[x].left != t.mem[x].right)
      && (node != t.root && x == t.mem[node].parent ==> t.mem[x].left == node || t.mem[x].right == node)
      && (t1.mem[x].parent == node && x != t.root <==>
         x == t.mem[node].left || x == (if p == node then c else t.mem[node].right))
      && (x == t.root ==> x != t.mem[node].left && x != c && x != t.mem[node].right)
  {
    Neighbours(t, x);
    Neighbours(t, node);
    Neighbours(t, s);
  }

  lemma SubstNil(t: State, node: Ref, s: Ref, c: Ref, p: Ref, x: Ref)
    requires t.Linked() && Apart(t, node, s, c, p) && x in t.mem && x !in t.spot
    ensures var m, t1 := SubstWrites(t, node, s, c, p), SpliceState(t, s, c, p);
      && x in m && m[x] == t.mem[x].(parent := m[x].parent) && t1.mem[x].red == t.mem[x].red &&
         (x != t.nil ==> m[x] == t.mem[x])
      && (x == c ==> m[x].parent == Rename(node, s, t1.mem[x].parent))
  {
  }

  // node has left the tree; its own record is free, other entries and memory outside the tree are as they were.
  ghost predicate Shrunk(t: State, t': State, node: Ref) {
    && node in t.spot && 0 <= t.spot[node].pos < |t.order|
    && t'.order == Remove(t.order, t.spot[node].pos) && t'.spot.Keys == t.spot.Keys - {node} && t'.nil == t.nil
    && t'.mem.Keys == t.mem.Keys
    && forall n {:trigger t'.mem[n]} :: n in t.mem && n != node ==>
         && t'.mem[n].key == t.mem[n].key && t'.mem[n].str == t.mem[n].str
         && (n !in t.spot && n != t.nil ==> t'.mem[n] == t.mem[n])
  }

  // From the spliced state t1 to memory m: whatever pointed to node points to s, and s has the links and colour of
  // node.
  ghost predicate Placed(t: State, t1: State, m: map<Ref, Cell>, node: Ref, s: Ref, c: Ref) {
    && m.Keys == t.mem.Keys == t1.mem.Keys && node in m && s in m
    && m[s] == t.mem[s].(left := t1.mem[node].left, right := t1.mem[node].right, parent := t1.mem[node].parent,
       red := t1.mem[node].red)
    && (forall x {:trigger PlacedAt(t, t1, m, node, s, c, x)} :: x in t.mem && x != node && x != s ==>
       PlacedAt(t, t1, m, node, s, c, x))
  }

  ghost predicate PlacedAt(t: State, t1: State, m: map<Ref, Cell>, node: Ref, s: Ref, c: Ref, x: Ref) {
    && x in m && x in t.mem && x in t1.mem
    && m[x].red == t1.mem[x].red && m[x].key == t.mem[x].key && m[x].str == t.mem[x].str
    && (x in t.spot ==>
          && m[x].left == (if t1.mem[x].left == node then s else t1.mem[x].left)
          && m[x].right == (if t1.mem[x].right == node then s else t1.mem[x].right)
          && m[x].parent == (if t1.mem[x].parent == node && x != t.root then s else t1.mem[x].parent))
    && (x !in t.spot && x != t.nil ==> m[x] == t.mem[x])
    && (x == c && x == t.nil ==> m[x].parent == if t1.mem[x].parent == node then s else t1.mem[x].parent)
  }

  lemma SubstPlacedAt(t: State, node: Ref, s: Ref, c: Ref, p: Ref, m: map<Ref, Cell>, t1: State, x: Ref)
    requires t.Linked() && Apart(t, node, s, c, p) && x in t.mem && x != node && x != s
    requires m == SubstWrites(t, node, s, c, p) && t1 == SpliceState(t, s, c, p)
    ensures PlacedAt(t, t1, m, node, s, c, x)
  {
    if x in t.spot {
      SubstCell(t, node, s, c, p, x);
    } else {
      SubstNil(t, node, s, c, p, x);
    }
  }

  lemma SubstPlaced(t: State, node: Ref, s: Ref, c: Ref, p: Ref, m: map<Ref, Cell>)
    requires t.Linked() && Apart(t, node, s, c, p)
    requires m.Keys == t.mem.Keys && forall x {:trigger m[x]} :: x in t.mem && x != node ==>
      m[x] == SubstWrites(t, node, s, c, p)[x]
    ensures Placed(t, SpliceState(t, s, c, p), m, node, s, c)
  {
    SubstOwnCell(t, node, s, c, p);
    var t1, w := SpliceState(t, s, c, p), SubstWrites(t, node, s, c, p);
    forall x | x in t.mem && x != node && x != s ensures PlacedAt(t, t1, m, node, s, c, x) {
      SubstPlacedAt(t, node, s, c, p, w, t1, x);
      assert m[x] == w[x];
    }
  }

  ghost function SubstSpots(t1: State, node: Ref, s: Ref): map<Ref, Spot>
    requires node in t1.spot
  {
    map m | m in t1.spot.Keys - {node} + {s} :: if m == s then t1.spot[node] else t1.spot[m]
  }

  lemma RemoveNext(order: seq<Ref>, k: int)
    requires 0 <= k && k + 1 < |order|
    ensures Remove(order, k) == Remove(order, k + 1)[k := order[k + 1]]
  {}

  // t' is t with s spliced out and then put in the place of node, whatever is done to the record of node.
  ghost predicate Substituted(t: State, t1: State, t': State, node: Ref, s: Ref, c: Ref, p: Ref) {
    && Successor(t, node, s) && Spliced(t, t1, s, c, p) && s != t.root && Placed(t, t1, t'.mem, node, s, c)
    && node in t1.spot && 0 <= t.spot[node].pos < |t.order|
    && t'.root == (if node == t.root then s else t.root) && t'.nil == t.nil
    && t'.order == Remove(t.order, t.spot[node].pos) && t'.spot == SubstSpots(t1, node, s)
  }

  lemma SubstitutedRenamed(t: State, t1: State, t': State, node: Ref, s: Ref, c: Ref, p: Ref)
    requires t.Linked() && Substituted(t, t1, t', node, s, c, p)
    ensures Renamed(t1, t', node, s)
  {
    assert t.At(s);
    RemoveNext(t.order, t.spot[node].pos);
    assert forall x :: x in t.mem && x != node && x != s ==> PlacedAt(t, t1, t'.mem, node, s, c, x);
  }

  lemma SubstitutedShrunk(t: State, t1: State, t': State, node: Ref, s: Ref, c: Ref, p: Ref)
    requires t.Linked() && Substituted(t, t1, t', node, s, c, p)
    ensures Shrunk(t, t', node)
  {
    assert forall x :: x in t.mem && x != node && x != s ==> PlacedAt(t, t1, t'.mem, node, s, c, x);
  }

  lemma SubstitutedColours(t: State, t1: State, t': State, node: Ref, s: Ref, c: Ref, p: Ref)
    requires Coloured(t) && Substituted(t, t1, t', node, s, c, p) && c != node
    ensures if Red(t, s) then Coloured(t') else Deleting(t', c)
  {
    SplicedColours(t, t1, s, c, p);
    SubstitutedRenamed(t, t1, t', node, s, c, p);
    if Red(t, s) {
      RenamedColoured(t1, t', node, s);
    } else {
      assert c == t.nil ==> PlacedAt(t, t1, t'.mem, node, s, c, c);
      RenamedDeleting(t1, t', node, s, c);
    }
  }

  // The preconditions of the three groups of writes.
  ghost predicate SubstReady(t: State, node: Ref, s: Ref, c: Ref, p: Ref) {
    && s in t.mem && c in t.mem && p in t.mem && p != s && c != s && p != c && t.mem[s].parent == p
    && node in t.spot && 0 <= t.spot[node].pos < |t.order| && s in t.spot && s != node && 0 <= t.spot[s].pos < |t.order|
    && var m2 := SpliceWrites(t.mem, node, s, c, p);
    && PlaceApart(m2, node, s, node == t.root)
    && var m4 := CopyWrites(m2, node, s, node == t.root);
    && s in m4 && m4[s].left in m4 && m4[s].right in m4 && m4[s].left != s && m4[s].right != s && node in m4
  }

  lemma SubstIsReady(t: State, node: Ref, s: Ref, c: Ref, p: Ref)
    requires t.Linked() && Successor(t, node, s) && t.mem[s].parent == p && t.mem[s].right == c
    ensures SubstReady(t, node, s, c, p)
  {
    SubstApart(t, node, s, c, p);
  }

  lemma SubstitutedState(t: State, t': State, node: Ref, s: Ref, c: Ref, p: Ref)
    requires t.Linked() && Successor(t, node, s) && Apart(t, node, s, c, p)
    requires node in t'.mem && t'.mem == SubstWrites(t, node, s, c, p)[node := t'.mem[node]]
    requires t' == State(t'.mem, if node == t.root then s else t.root, t.nil, Remove(t.order, t.spot[node].pos),
                         SubstSpots(SpliceState(t, s, c, p), node, s))
    ensures Substituted(t, SpliceState(t, s, c, p), t', node, s, c, p)
  {
    SpliceStateSpliced(t, s, c, p);
    SubstitutedMemory(t, t'.mem, node, s, c, p);
  }

  lemma SubstitutedMemory(t: State, m: map<Ref, Cell>, node: Ref, s: Ref, c: Ref, p: Ref)
    requires t.Linked() && Apart(t, node, s, c, p) && node in m && m == SubstWrites(t, node, s, c, p)[node := m[node]]
    ensures Placed(t, SpliceState(t, s, c, p), m, node, s, c)
  {
    SubstOwnCell(t, node, s, c, p);
    SubstPlaced(t, node, s, c, p, m);
  }

  lemma SubstitutedOk(t: State, t': State, node: Ref, s: Ref, c: Ref, p: Ref)
    requires Coloured(t) && Successor(t, node, s) && t.mem[s].parent == p && t.mem[s].right == c &&
      SubstReady(t, node, s, c, p)
    requires
      var m := AdoptWrites(CopyWrites(SpliceWrites(t.mem, node, s, c, p), node, s, node == t.root), t.nil, s);
      && node in t'.mem && t'.mem == m[node := t'.mem[node]]
      && t' == State(t'.mem, if node == t.root then s else t.root, t.nil, Remove(t.order, t.spot[node].pos),
                     SubstSpots(SpliceState(t, s, c, p), node, s))
    ensures if Red(t, s) then Coloured(t') else Deleting(t', c)
    ensures Shrunk(t, t', node)
  {
    SubstApart(t, node, s, c, p);
    SubstitutedState(t, t', node, s, c, p);
    var t1 := SpliceState(t, s, c, p);
    SubstitutedShrunk(t, t1, t', node, s, c, p);
    SubstitutedColours(t, t1, t', node, s, c, p);
  }

  // t' is t after the writes that splice out node itself, and whatever is done to its record.
  ghost predicate Unspliced(t: State, t': State, node: Ref, c: Ref, p: Ref) {
    && t.At(node) && node != t.root && t.mem[node].parent == p && p in t.mem && c in t.mem
    && ((t.mem[node].left == t.nil && t.mem[node].right == c) || (t.mem[node].right == t.nil && t.mem[node].left == c))
    && var t1 := SpliceState(t, node, c, p);
    && t'.mem.Keys == t.mem.Keys && (forall x {:trigger t'.mem[x]} :: x in t.mem && x != node ==>
       t'.mem[x] == t1.mem[x])
    && t'.root == t.root && t'.nil == t.nil && t'.order == t1.order && t'.spot == t1.spot
  }

  lemma UnsplicedColours(t: State, t': State, node: Ref, c: Ref, p: Ref)
    requires Coloured(t) && Unspliced(t, t', node, c, p)
    ensures if Red(t, node) then Coloured(t') else Deleting(t', c)
    ensures Shrunk(t, t', node)
  {
    SpliceStateSpliced(t, node, c, p);
    UnsplicedShrunk(t, t', node, c, p);
    UnsplicedSpliced(t, t', node, c, p);
    SplicedColours(t, t', node, c, p);
  }

  lemma UnsplicedSpliced(t: State, t': State, node: Ref, c: Ref, p: Ref)
    requires t.Linked() && Unspliced(t, t', node, c, p) && Spliced(t, SpliceState(t, node, c, p), node, c, p)
    ensures Spliced(t, t', node, c, p)
  {
    Neighbours(t, node);
  }

  lemma UnsplicedShrunk(t: State, t': State, node: Ref, c: Ref, p: Ref)
    requires t.Linked() && Unspliced(t, t', node, c, p)
    ensures Shrunk(t, t', node)
  {
    Neighbours(t, node);
  }

  // The root has at most one child c, which becomes the root and turns black.
  ghost predicate RootTaken(t: State, t': State, node: Ref, c: Ref) {
    && t.At(node) && node == t.root && c in t.mem && c != node
    && ((t.mem[node].left == t.nil && t.mem[node].right == c) || (t.mem[node].right == t.nil && t.mem[node].left == c))
    && t'.mem.Keys == t.mem.Keys
    && (forall x {:trigger t'.mem[x]} :: x in t.mem && x != node ==>
          t'.mem[x] == if x == c then t.mem[x].(red := false) else t.mem[x])
    && t'.root == c && t'.nil == t.nil && t'.order == Remove(t.order, t.spot[node].pos)
    && t'.spot == SpliceState(t, node, c, node).spot
  }

  lemma RootTakenColours(t: State, t': State, node: Ref, c: Ref)
    requires Coloured(t) && RootTaken(t, t', node, c)
    ensures Coloured(t') && Shrunk(t, t', node)
  {
    var u := t'.(mem := t'.mem[c := t'.mem[c].(red := t.mem[c].red)]);
    RootTakenSpliced(t, t', u, node, c);
    RootPainted(t, t', u, node, c);
    SplicedColours(t, u, node, c, t.mem[node].parent);
    DeleteDone(u, t', c);
  }

  // Before the new root is painted black
  lemma RootTakenSpliced(t: State, t': State, u: State, node: Ref, c: Ref)
    requires t.Linked() && RootTaken(t, t', node, c) && c in t'.mem &&
      u == t'.(mem := t'.mem[c := t'.mem[c].(red := t.mem[c].red)])
    ensures Spliced(t, u, node, c, t.mem[node].parent)
  {
    Neighbours(t, node);
  }

  lemma RootPainted(t: State, t': State, u: State, node: Ref, c: Ref)
    requires t.Linked() && RootTaken(t, t', node, c) && c in t'.mem &&
      u == t'.(mem := t'.mem[c := t'.mem[c].(red := t.mem[c].red)])
    ensures SameLinks(u, t') && Tinted(u, t', map[c := false], map[])
  {
    Neighbours(t, node);
    assert t'.mem[c] == u.mem[c].(red := false);
    assert forall x {:trigger t'.mem[x]} :: x in u.mem && x != c ==> t'.mem[x] == u.mem[x];
    Repainted(u, t', c);
  }

  lemma Repainted(u: State, t': State, c: Ref)
    requires c in u.mem && t' == u.(mem := t'.mem) && t'.mem.Keys == u.mem.Keys && t'.mem[c] == u.mem[c].(red := false)
    requires forall x {:trigger t'.mem[x]} :: x in u.mem && x != c ==> t'.mem[x] == u.mem[x]
    ensures SameLinks(u, t') && Tinted(u, t', map[c := false], map[])
  {
  }
}
