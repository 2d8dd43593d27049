/** The operations of nginx/src/core/ngx_rbtree.c, statement by statement, on the
    memory model of RbLinks; RbColour says why each step is right. */
module RbTree {
  import opened RbLinks
  import opened RbColour
  import opened RbUnlink

  const NULL: Ref := 0

  // What an insert function compares: the key and the bytes the node is embedded with.
  datatype Entry = Entry(key: nat, str: seq<nat>)

  ghost function EntryAt(mem: map<Ref, Cell>, n: Ref): Entry
    requires n in mem
  {
    Entry(mem[n].key, mem[n].str)
  }

  ghost function Entries(mem: map<Ref, Cell>, order: seq<Ref>): set<Entry> {
    set i | 0 <= i < |order| && order[i] in mem :: EntryAt(mem, order[i])
  }

  // What an insert function's comparison must satisfy on the entries that are in the tree together.
  ghost predicate Ordering(less: (Entry, Entry) -> bool, es: set<Entry>) {
    && (forall a, b :: a in es && b in es && less(a, b) ==> !less(b, a))
    && (forall a, b, c :: a in es && b in es && c in es && less(a, b) ==> less(a, c) || less(c, b))
  }

  // Equal entries are allowed, so the in-order sequence is only nondecreasing.
  ghost predicate Sorted(less: (Entry, Entry) -> bool, mem: map<Ref, Cell>, order: seq<Ref>) {
    && (forall i :: 0 <= i < |order| ==> order[i] in mem)
    && (forall i, j :: 0 <= i < j < |order| ==> !less(EntryAt(mem, order[j]), EntryAt(mem, order[i])))
  }

  // k is the place for e after every entry that is not greater.
  ghost predicate PlaceFor(less: (Entry, Entry) -> bool, mem: map<Ref, Cell>, order: seq<Ref>, e: Entry, k: int) {
    && 0 <= k <= |order|
    && (forall i :: 0 <= i < |order| && order[i] in mem ==> (less(e, EntryAt(mem, order[i])) <==> k <= i))
  }

  ghost predicate SameEntries(m: map<Ref, Cell>, m': map<Ref, Cell>) {
    m'.Keys == m.Keys && forall n {:trigger m'[n]} :: n in m ==> m'[n].key == m[n].key && m'[n].str == m[n].str
  }

  lemma SortedInsert(less: (Entry, Entry) -> bool, m: map<Ref, Cell>, m': map<Ref, Cell>, order: seq<Ref>, n: Ref,
      k: int)
    requires Sorted(less, m, order) && n in m && SameEntries(m, m') && PlaceFor(less, m, order, EntryAt(m, n), k)
    requires Ordering(less, Entries(m, order) + {EntryAt(m, n)})
    ensures Sorted(less, m', order[..k] + [n] + order[k..])
  {
    var o' := order[..k] + [n] + order[k..];
    forall i, j | 0 <= i < j < |o'| ensures !less(EntryAt(m', o'[j]), EntryAt(m', o'[i])) {
      assert i < k ==> o'[i] == order[i];
      assert j > k ==> o'[j] == order[j - 1] && EntryAt(m, order[j - 1]) in Entries(m, order);
      assert i > k ==> o'[i] == order[i - 1];
    }
  }

  // Going left or right from temp keeps the place for e inside the interval of the next node.
  lemma Descend(less: (Entry, Entry) -> bool, t: State, temp: Ref, e: Entry)
    requires t.Linked() && Sorted(less, t.mem, t.order) && temp in t.spot && temp in t.mem
    requires Ordering(less, Entries(t.mem, t.order) + {e})
    ensures 0 <= t.spot[temp].pos < |t.order|
    ensures less(e, EntryAt(t.mem, temp)) ==>
      forall i :: t.spot[temp].pos <= i < |t.order| ==> less(e, EntryAt(t.mem, t.order[i]))
    ensures !less(e, EntryAt(t.mem, temp)) ==>
      forall i :: 0 <= i <= t.spot[temp].pos ==> !less(e, EntryAt(t.mem, t.order[i]))
  {
    assert t.At(temp);
    var es := Entries(t.mem, t.order);
    assert forall i :: 0 <= i < |t.order| ==> EntryAt(t.mem, t.order[i]) in es;
    assert t.order[t.spot[temp].pos] == temp;
  }

  // The same nodes in the same in-order sequence, with the same entries; memory outside the tree is untouched.
  ghost predicate Kept(t: State, t': State) {
    && t'.mem.Keys == t.mem.Keys && t'.nil == t.nil && t'.order == t.order && t'.spot.Keys == t.spot.Keys
    && forall n {:trigger t'.mem[n]} :: n in t.mem ==>
         && t'.mem[n].key == t.mem[n].key && t'.mem[n].str == t.mem[n].str
         && (n !in t.spot && n != t.nil ==> t'.mem[n] == t.mem[n])
  }

  lemma KeptTrans(t: State, u: State, v: State)
    requires Kept(t, u) && Kept(u, v)
    ensures Kept(t, v)
  {}

  ghost predicate Distinct(t: State, x: Ref, y: Ref, b: Ref, p: Ref) {
    && x in t.mem && y in t.mem && x in t.spot && y in t.spot && x != y && b != x && b != y && b in t.mem
    && x != t.nil && y != t.nil && t.mem[x].parent == p
    && (b in t.spot || b == t.nil) && (x != t.root ==> p in t.mem && p in t.spot && p != x && p != y && p != b)
  }

  // The writes of a left rotation, in the order of the source.
  ghost function LeftWrites(t: State, x: Ref, y: Ref, b: Ref, p: Ref): map<Ref, Cell>
    requires Distinct(t, x, y, b, p)
  {
    var m1 := t.mem[x := t.mem[x].(right := b)];
    var m2 := if b != t.nil then m1[b := m1[b].(parent := x)] else m1;
    var m3 := m2[y := m2[y].(parent := p)];
    var m4 := if x == t.root then m3
              else if m3[p].left == x then m3[p := m3[p].(left := y)] else m3[p := m3[p].(right := y)];
    var m5 := m4[y := m4[y].(left := x)];
    m5[x := m5[x].(parent := y)]
  }

  ghost function LeftSpots(t: State, x: Ref, y: Ref): map<Ref, Spot>
    requires x in t.spot && y in t.spot
  {
    t.spot[y := t.spot[y].(lo := t.spot[x].lo, hi := t.spot[x].hi)][x := t.spot[x].(hi := t.spot[y].pos)]
  }

  ghost function LeftRotated(t: State, x: Ref, y: Ref, b: Ref, p: Ref): State
    requires Distinct(t, x, y, b, p)
  {
    State(LeftWrites(t, x, y, b, p), if x == t.root then y else t.root, t.nil, t.order, LeftSpots(t, x, y))
  }

  lemma LeftWritesRotate(t: State, x: Ref, y: Ref, b: Ref, p: Ref)
    requires Distinct(t, x, y, b, p) && t.mem[x].right == y && t.mem[y].left == b
    ensures RotatedLeft(t, LeftRotated(t, x, y, b, p), x, y, b, p)
  {
  }

  lemma LeftWritesKept(t: State, x: Ref, y: Ref, b: Ref, p: Ref)
    requires Distinct(t, x, y, b, p)
    ensures Kept(t, LeftRotated(t, x, y, b, p))
  {
    LeftWritesCells(t, x, y, b, p);
    assert LeftSpots(t, x, y).Keys == t.spot.Keys;
  }

  lemma LeftWritesCells(t: State, x: Ref, y: Ref, b: Ref, p: Ref)
    requires Distinct(t, x, y, b, p)
    ensures var m := LeftWrites(t, x, y, b, p);
      && m.Keys == t.mem.Keys
      && forall n {:trigger m[n]} :: n in t.mem ==>
           && m[n].key == t.mem[n].key && m[n].str == t.mem[n].str
           && (n !in t.spot && n != t.nil ==> m[n] == t.mem[n])
  {
  }

  lemma LeftWritesTint(t: State, x: Ref, y: Ref, b: Ref, p: Ref)
    requires Distinct(t, x, y, b, p)
    ensures Tinted(t, LeftRotated(t, x, y, b, p), map[], map[])
  {
  }

  lemma LeftWritesAll(t: State, x: Ref, y: Ref, b: Ref, p: Ref)
    requires t.Linked() && Distinct(t, x, y, b, p) && t.mem[x].right == y && t.mem[y].left == b
    ensures var u := LeftRotated(t, x, y, b, p);
      RotatedLeft(t, u, x, y, b, p) && Kept(t, u) && Tinted(t, u, map[], map[]) && u.Linked()
  {
    LeftWritesRotate(t, x, y, b, p);
    LeftWritesKept(t, x, y, b, p);
    LeftWritesTint(t, x, y, b, p);
    RotatedLeftLinked(t, LeftRotated(t, x, y, b, p), x, y, b, p);
  }

  // The writes of a right rotation.
  ghost function RightWrites(t: State, x: Ref, y: Ref, b: Ref, p: Ref): map<Ref, Cell>
    requires Distinct(t, x, y, b, p)
  {
    var m1 := t.mem[x := t.mem[x].(left := b)];
    var m2 := if b != t.nil then m1[b := m1[b].(parent := x)] else m1;
    var m3 := m2[y := m2[y].(parent := p)];
    var m4 := if x == t.root then m3
              else if m3[p].right == x then m3[p := m3[p].(right := y)] else m3[p := m3[p].(left := y)];
    var m5 := m4[y := m4[y].(right := x)];
    m5[x := m5[x].(parent := y)]
  }

  ghost function RightSpots(t: State, x: Ref, y: Ref): map<Ref, Spot>
    requires x in t.spot && y in t.spot
  {
    t.spot[y := t.spot[y].(lo := t.spot[x].lo, hi := t.spot[x].hi)][x := t.spot[x].(lo := t.spot[y].pos + 1)]
  }

  ghost function RightRotated(t: State, x: Ref, y: Ref, b: Ref, p: Ref): State
    requires Distinct(t, x, y, b, p)
  {
    State(RightWrites(t, x, y, b, p), if x == t.root then y else t.root, t.nil, t.order, RightSpots(t, x, y))
  }

  lemma RightWritesRotate(t: State, x: Ref, y: Ref, b: Ref, p: Ref)
    requires Distinct(t, x, y, b, p) && t.mem[x].left == y && t.mem[y].right == b
    ensures RotatedRight(t, RightRotated(t, x, y, b, p), x, y, b, p)
  {
  }

  lemma RightWritesKept(t: State, x: Ref, y: Ref, b: Ref, p: Ref)
    requires Distinct(t, x, y, b, p)
    ensures Kept(t, RightRotated(t, x, y, b, p))
  {
    RightWritesCells(t, x, y, b, p);
    assert RightSpots(t, x, y).Keys == t.spot.Keys;
  }

  lemma RightWritesCells(t: State, x: Ref, y: Ref, b: Ref, p: Ref)
    requires Distinct(t, x, y, b, p)
    ensures var m := RightWrites(t, x, y, b, p);
      && m.Keys == t.mem.Keys
      && forall n {:trigger m[n]} :: n in t.mem ==>
           && m[n].key == t.mem[n].key && m[n].str == t.mem[n].str
           && (n !in t.spot && n != t.nil ==> m[n] == t.mem[n])
  {
  }

  lemma RightWritesTint(t: State, x: Ref, y: Ref, b: Ref, p: Ref)
    requires Distinct(t, x, y, b, p)
    ensures Tinted(t, RightRotated(t, x, y, b, p), map[], map[])
  {
  }

  lemma RightWritesAll(t: State, x: Ref, y: Ref, b: Ref, p: Ref)
    requires t.Linked() && Distinct(t, x, y, b, p) && t.mem[x].left == y && t.mem[y].right == b
    ensures var u := RightRotated(t, x, y, b, p);
      RotatedRight(t, u, x, y, b, p) && Kept(t, u) && Tinted(t, u, map[], map[]) && u.Linked()
  {
    RightWritesRotate(t, x, y, b, p);
    RightWritesKept(t, x, y, b, p);
    RightWritesTint(t, x, y, b, p);
    RotatedRightLinked(t, RightRotated(t, x, y, b, p), x, y, b, p);
  }

  // The nodes a rotation writes are different ones.
  lemma RotateDistinct(t: State, x: Ref, y: Ref, b: Ref, p: Ref)
    requires t.Linked() && x in t.spot && x in t.mem && y != t.nil && y in t.mem && t.mem[x].parent == p
    requires (t.mem[x].right == y && t.mem[y].left == b) || (t.mem[x].left == y && t.mem[y].right == b)
    ensures Distinct(t, x, y, b, p)
  {
    Neighbours(t, x);
    Neighbours(t, y);
  }

  // Painting before a rotation.
  lemma RotatedLeftPainted(t: State, u: State, v: State, x: Ref, y: Ref, b: Ref, p: Ref, tint: map<Ref, bool>)
    requires SameLinks(t, u) && Tinted(t, u, tint, map[]) && RotatedLeft(u, v, x, y, b, p) && Tinted(u, v, map[], map[])
    ensures RotatedLeft(t, v, x, y, b, p) && Tinted(t, v, tint, map[])
  {
  }

  lemma RotatedRightPainted(t: State, u: State, v: State, x: Ref, y: Ref, b: Ref, p: Ref, tint: map<Ref, bool>)
    requires SameLinks(t, u) && Tinted(t, u, tint, map[]) && RotatedRight(u, v, x, y, b, p) &&
      Tinted(u, v, map[], map[])
    ensures RotatedRight(t, v, x, y, b, p) && Tinted(t, v, tint, map[])
  {
  }

  lemma PaintTwice(t: State, a: Ref, ra: bool, b: Ref, rb: bool)
    requires a in t.mem && b in t.mem && a != b && (a in t.spot || a == t.nil) && (b in t.spot || b == t.nil)
    ensures var u := t.(mem := t.mem[a := t.mem[a].(red := ra)][b := t.mem[b].(red := rb)]);
      SameLinks(t, u) && Tinted(t, u, map[a := ra, b := rb], map[]) && Kept(t, u)
  {}

  ghost function RedUncleState(t: State, p: Ref, u: Ref, g: Ref): State
    requires p in t.mem && u in t.mem && g in t.mem && g in t.spot
  {
    var m1 := t.mem[p := t.mem[p].(red := false)];
    var m2 := m1[u := m1[u].(red := false)];
    t.(mem := m2[g := m2[g].(red := true)], spot := t.spot[g := t.spot[g].(bh := t.spot[g].bh + 1)])
  }

  lemma RedUnclePaints(t: State, node: Ref, p: Ref, u: Ref, g: Ref)
    requires RedParent(t, node, p, g, u) && Red(t, u)
    ensures p in t.mem && u in t.mem && var t' := RedUncleState(t, p, u, g);
      SameLinks(t, t') && Tinted(t, t', map[p := false, u := false, g := true], map[g := t.spot[g].bh + 1]) &&
        Kept(t, t')
  {
    RedParentFacts(t, node, p, g, u);
    Neighbours(t, g);
    UnclePaints(t, p, u, g);
    UnclePaintsKeep(t, p, u, g);
  }

  lemma UnclePaints(t: State, p: Ref, u: Ref, g: Ref)
    requires p in t.mem && u in t.mem && g in t.mem && g in t.spot && p != u && p != g && u != g
    ensures var t' := RedUncleState(t, p, u, g);
      SameLinks(t, t') && Tinted(t, t', map[p := false, u := false, g := true], map[g := t.spot[g].bh + 1])
  {}

  lemma UnclePaintsKeep(t: State, p: Ref, u: Ref, g: Ref)
    requires p in t.mem && u in t.mem && g in t.mem && g in t.spot && p in t.spot && u in t.spot
    ensures Kept(t, RedUncleState(t, p, u, g))
  {}

  // A parent's subtree is larger than its child's.
  lemma Climb(t: State, n: Ref)
    requires t.Linked() && n in t.spot && n in t.mem && n != t.root
    ensures Size(t, n) < Size(t, t.mem[n].parent)
  {
    Neighbours(t, n);
  }

  lemma FocusInMemory(t: State, node: Ref)
    requires Inserting(t, node)
    ensures node in t.mem && t.root in t.mem && (node != t.root ==> t.mem[node].parent in t.mem)
  {
    assert t.At(node);
    assert t.At(t.root);
  }

  lemma RedParentHolds(t: State, node: Ref)
    requires Inserting(t, node) && node != t.root && node in t.mem && Red(t, t.mem[node].parent)
    ensures t.At(node) && t.At(t.mem[node].parent) && t.At(t.mem[t.mem[node].parent].parent) &&
      Size(t, node) <= |t.order|
    ensures
      var p := t.mem[node].parent;
      var g := t.mem[p].parent;
      if t.mem[g].left == p then RedParent(t, node, p, g, t.mem[g].right)
      else t.mem[g].right == p && RedParent(t, node, p, g, t.mem[g].left)
  {
    Neighbours(t, node);
    Neighbours(t, t.mem[node].parent);
    Neighbours(t, t.mem[t.mem[node].parent].parent);
  }

  // The loop stops when the focus is the root or has a black parent; then painting the root black is enough.
  lemma InsertDone(t: State, t': State, node: Ref)
    requires Inserting(t, node) && (node == t.root || (node in t.mem && !Red(t, t.mem[node].parent)))
    requires t.root in t.mem && t' == t.(mem := t.mem[t.root := t.mem[t.root].(red := false)])
    ensures Coloured(t') && Kept(t, t')
  {
    SameLinksLinked(t, t');
    forall n | n in t'.spot ensures BlackAt(t', n) && RedAt(t', n, t'.nil) {
      assert BlackAt(t, n) && RedAt(t, n, node);
      Neighbours(t, n);
    }
  }

  // After the inner rotation the old focus is the red parent of the new one, on the outside.
  lemma InnerTurnRedParent(t: State, t': State, node: Ref, p: Ref, g: Ref, u: Ref, b: Ref)
    requires RedParent(t, node, p, g, u) && RotatedLeft(t, t', p, node, b, g) && Tinted(t, t', map[], map[]) &&
      t.mem[g].left == p
    ensures RedParent(t', p, node, g, u) && node in t'.mem && t'.mem[g].left == node && t'.mem[node].left == p &&
      Red(t', u) == Red(t, u)
  {
    InnerTurn(t, t', node, p, g, u, b);
    RedParentFacts(t, node, p, g, u);
  }

  lemma InnerTurnRightRedParent(t: State, t': State, node: Ref, p: Ref, g: Ref, u: Ref, b: Ref)
    requires RedParent(t, node, p, g, u) && RotatedRight(t, t', p, node, b, g) && Tinted(t, t', map[], map[]) &&
      t.mem[g].right == p
    ensures RedParent(t', p, node, g, u) && node in t'.mem && t'.mem[g].right == node && t'.mem[node].right == p &&
      Red(t', u) == Red(t, u)
  {
    InnerTurnRight(t, t', node, p, g, u, b);
    RedParentFacts(t, node, p, g, u);
  }

  ghost function Size(t: State, n: Ref): int {
    if n in t.spot then t.spot[n].hi - t.spot[n].lo else 0
  }

  // node has joined the tree at index k; entries are as they were, and so is memory outside the tree.
  ghost predicate Grown(t: State, t': State, node: Ref, k: int) {
    && 0 <= k <= |t.order| && t'.order == t.order[..k] + [node] + t.order[k..]
    && t'.spot.Keys == t.spot.Keys + {node} && t'.nil == t.nil
    && SameEntries(t.mem, t'.mem)
    && forall n {:trigger t'.mem[n]} :: n in t.mem && n !in t'.spot && n != t.nil ==> t'.mem[n] == t.mem[n]
  }

  lemma GrownKept(t: State, u: State, v: State, node: Ref, k: int)
    requires Grown(t, u, node, k) && Kept(u, v)
    ensures Grown(t, v, node, k)
  {}

  ghost function GrownLeft(t: State, node: Ref, k: int): map<Ref, Spot> {
    map m | m in t.spot.Keys + {node} ::
      if m == node then Spot(k, k, k + 1, 0)
      else Spot(if t.spot[m].pos >= k then t.spot[m].pos + 1 else t.spot[m].pos,
                if t.spot[m].lo > k then t.spot[m].lo + 1 else t.spot[m].lo,
                if t.spot[m].hi > k then t.spot[m].hi + 1 else t.spot[m].hi, t.spot[m].bh)
  }

  ghost function GrownRight(t: State, node: Ref, k: int): map<Ref, Spot> {
    map m | m in t.spot.Keys + {node} ::
      if m == node then Spot(k, k, k + 1, 0)
      else Spot(if t.spot[m].pos >= k then t.spot[m].pos + 1 else t.spot[m].pos,
                if t.spot[m].lo >= k then t.spot[m].lo + 1 else t.spot[m].lo,
                if t.spot[m].hi >= k then t.spot[m].hi + 1 else t.spot[m].hi, t.spot[m].bh)
  }

  lemma AttachedState(t: State, t': State, node: Ref, q: Ref, onLeft: bool, k: int)
    requires Coloured(t) && node in t.mem && node !in t.spot && node != t.nil && t.At(q)
    requires if onLeft then t.mem[q].left == t.nil && k == t.spot[q].pos
      else t.mem[q].right == t.nil && k == t.spot[q].pos + 1
    requires var m1 := t.mem[q := if onLeft then t.mem[q].(left := node) else t.mem[q].(right := node)];
      t' == State(m1[node := m1[node].(parent := q, left := t.nil, right := t.nil, red := true)], t.root, t.nil,
                  t.order[..k] + [node] + t.order[k..], if onLeft then GrownLeft(t, node, k)
                    else GrownRight(t, node, k))
    ensures Inserting(t', node) && Grown(t, t', node, k)
  {
    if onLeft {
      AttachedLeftInserting(t, t', node, q);
    } else {
      AttachedRightInserting(t, t', node, q);
    }
  }

  lemma PaintThrice(t: State, w: Ref, red: bool, p: Ref, r: Ref)
    requires w in t.mem && p in t.mem && r in t.mem && w in t.spot && p in t.spot && r in t.spot && w != p && w != r &&
      p != r
    ensures
      var m1 := t.mem[w := t.mem[w].(red := red)];
      var m2 := m1[p := m1[p].(red := false)];
      var u := t.(mem := m2[r := m2[r].(red := false)]);
      SameLinks(t, u) && Tinted(t, u, map[w := red, p := false, r := false], map[]) && Kept(t, u)
  {}

  ghost predicate Reheighted(t: State, t': State, w: Ref, p: Ref, h: int) {
    w in t.spot && p in t.spot && w != p &&
      t' == t.(spot := t.spot[w := t.spot[w].(bh := h)][p := t.spot[p].(bh := h - 1)])
  }

  lemma RotatedLeftHeights(t: State, u: State, v: State, p: Ref, w: Ref, b: Ref, q: Ref, tint: map<Ref, bool>, h: int)
    requires RotatedLeft(t, u, p, w, b, q) && Tinted(t, u, tint, map[]) && Reheighted(u, v, w, p, h)
    ensures RotatedLeft(t, v, p, w, b, q) && Tinted(t, v, tint, map[w := h, p := h - 1]) && (Kept(t, u) ==> Kept(t, v))
  {}

  lemma RotatedRightHeights(t: State, u: State, v: State, p: Ref, w: Ref, b: Ref, q: Ref, tint: map<Ref, bool>, h: int)
    requires RotatedRight(t, u, p, w, b, q) && Tinted(t, u, tint, map[]) && Reheighted(u, v, w, p, h)
    ensures RotatedRight(t, v, p, w, b, q) && Tinted(t, v, tint, map[w := h, p := h - 1]) && (Kept(t, u) ==> Kept(t, v))
  {}

  lemma OuterNephewLeftSteps(t: State, tp: State, tr: State, t': State, x: Ref, p: Ref, w: Ref, r: Ref)
    requires Sibling(t, x, p, w) && !Red(t, x) && t.mem[p].left == x && !Red(t, w) && w in t.mem &&
      t.mem[w].right == r && Red(t, r)
    requires SameLinks(t, tp) && Tinted(t, tp, map[w := t.mem[p].red, p := false, r := false], map[]) && Kept(t, tp)
    requires RotatedLeft(tp, tr, p, w, t.mem[w].left, t.mem[p].parent) && Tinted(tp, tr, map[], map[]) && Kept(tp, tr)
    requires Reheighted(tr, t', w, p, t.spot[p].bh)
    ensures Deleting(t', t'.root) && Kept(t, t')
  {
    var tint := map[w := t.mem[p].red, p := false, r := false];
    RotatedLeftPainted(t, tp, tr, p, w, t.mem[w].left, t.mem[p].parent, tint);
    KeptTrans(t, tp, tr);
    RotatedLeftHeights(t, tr, t', p, w, t.mem[w].left, t.mem[p].parent, tint, t.spot[p].bh);
    OuterNephew(t, t', x, p, w, r, t.mem[w].left, t.mem[p].parent);
  }

  lemma OuterNephewRightSteps(t: State, tp: State, tr: State, t': State, x: Ref, p: Ref, w: Ref, r: Ref)
    requires Sibling(t, x, p, w) && !Red(t, x) && t.mem[p].right == x && !Red(t, w) && w in t.mem &&
      t.mem[w].left == r && Red(t, r)
    requires SameLinks(t, tp) && Tinted(t, tp, map[w := t.mem[p].red, p := false, r := false], map[]) && Kept(t, tp)
    requires RotatedRight(tp, tr, p, w, t.mem[w].right, t.mem[p].parent) && Tinted(tp, tr, map[], map[]) && Kept(tp, tr)
    requires Reheighted(tr, t', w, p, t.spot[p].bh)
    ensures Deleting(t', t'.root) && Kept(t, t')
  {
    var tint := map[w := t.mem[p].red, p := false, r := false];
    RotatedRightPainted(t, tp, tr, p, w, t.mem[w].right, t.mem[p].parent, tint);
    KeptTrans(t, tp, tr);
    RotatedRightHeights(t, tr, t', p, w, t.mem[w].right, t.mem[p].parent, tint, t.spot[p].bh);
    OuterNephewRight(t, t', x, p, w, r, t.mem[w].right, t.mem[p].parent);
  }

  lemma NephewFacts(t: State, x: Ref, p: Ref, w: Ref)
    requires Sibling(t, x, p, w) && !Red(t, x)
    ensures p in t.spot && w in t.spot && w in t.mem && p in t.mem && w != p && w != t.nil && t.mem[w].parent == p
    ensures var l := t.mem[w].left; l in t.mem && (l != t.nil ==> l in t.spot && l != w && l != p)
    ensures var r := t.mem[w].right; r in t.mem && (r != t.nil ==> r in t.spot && r != w && r != p)
    ensures !Red(t, t.nil) && t.Linked()
  {
    SiblingFacts(t, x, p, w);
    Neighbours(t, w);
  }

  lemma ShortInMemory(t: State, x: Ref)
    requires Deleting(t, x)
    ensures x in t.mem
  {
    assert x in t.spot ==> t.At(x);
  }

  lemma ShortSibling(t: State, x: Ref)
    requires Deleting(t, x) && x != t.root && x in t.mem && !Red(t, x)
    ensures t.mem[x].parent in t.mem && Size(t, x) <= |t.order|
    ensures var p := t.mem[x].parent;
      if t.mem[p].left == x then Sibling(t, x, p, t.mem[p].right)
        else t.mem[p].right == x && Sibling(t, x, p, t.mem[p].left)
  {
    var p := t.mem[x].parent;
    assert t.At(p);
    if x in t.spot { assert t.At(x); }
    if t.mem[p].right == x { SiblingFacts(t, x, p, t.mem[p].left); }
  }

  lemma ShortClimb(t: State, x: Ref, p: Ref, w: Ref)
    requires Sibling(t, x, p, w) && !Red(t, x)
    ensures Size(t, p) > Size(t, x)
  {
    SiblingFacts(t, x, p, w);
    if x in t.spot { Neighbours(t, x); }
  }

  ghost predicate Cleared(m: map<Ref, Cell>, m': map<Ref, Cell>, node: Ref) {
    && node in m && node in m'
    && m'[node].left == NULL && m'[node].right == NULL && m'[node].parent == NULL && m'[node].key == 0 &&
       m'[node].str == m[node].str
  }

  lemma RewiredNode(t: State, m: map<Ref, Cell>, node: Ref, s: Ref, c: Ref, p: Ref)
    requires SubstReady(t, node, s, c, p)
    requires m == AdoptWrites(CopyWrites(SpliceWrites(t.mem, node, s, c, p), node, s, node == t.root), t.nil, s)
    ensures node in m && node in t.mem && m[node].str == t.mem[node].str
  {}

  lemma ShrunkKept(t: State, u: State, v: State, node: Ref)
    requires Shrunk(t, u, node) && Kept(u, v) && node in t.mem && node != t.nil
    ensures Shrunk(t, v, node) && v.mem[node] == u.mem[node]
  {}

  lemma SortedRemove(less: (Entry, Entry) -> bool, t: State, t': State, node: Ref)
    requires Sorted(less, t.mem, t.order) && t.Linked() && Shrunk(t, t', node)
    ensures Sorted(less, t'.mem, t'.order)
  {
    var k := t.spot[node].pos;
    assert t.At(node);
    assert forall i :: 0 <= i < |t'.order| ==> t'.order[i] == t.order[if i < k then i else i + 1];
    assert forall i :: 0 <= i < |t.order| && i != k ==> t.order[i] != node;
  }

  class Tree {
    var mem: map<Ref, Cell>
    var root: Ref
    const sentinel: Ref
    const less: (Entry, Entry) -> bool
    ghost var order: seq<Ref>
    ghost var spot: map<Ref, Spot>

    ghost function View(): State
      reads this
    {
      State(mem, root, sentinel, order, spot)
    }

    // A red-black tree whose in-order sequence is sorted.
    ghost predicate Valid()
      reads this
    {
      NULL !in mem && Coloured(View()) && Sorted(less, mem, order)
    }

    // ngx_rbtree_init: the sentinel must be black.
    constructor (mem: map<Ref, Cell>, s: Ref, less: (Entry, Entry) -> bool)
      requires s in mem && NULL !in mem
      ensures Valid() && order == [] && spot == map[] && sentinel == s && this.less == less
      ensures this.mem == mem[s := mem[s].(red := false)]
    {
      this.mem, root, sentinel, this.less := mem[s := mem[s].(red := false)], s, s, less;
      order, spot := [], map[];
    }

    // ngx_rbt_red, ngx_rbt_black
    method Paint(n: Ref, red: bool)
      requires n in mem
      modifies this`mem
      ensures mem == old(mem)[n := old(mem)[n].(red := red)]
    {
      mem := mem[n := mem[n].(red := red)];
    }

    // ngx_rbtree_left_rotate
    method LeftRotate(node: Ref)
      requires View().Linked() && node in spot && node in mem && mem[node].right != sentinel && mem[node].right in mem
      modifies this`mem, this`root, this`spot
      ensures node in old(mem) && old(mem)[node].right in old(mem)
      ensures RotatedLeft(old(View()), View(), node, old(mem)[node].right, old(mem)[old(mem)[node].right].left,
        old(mem)[node].parent)
      ensures Tinted(old(View()), View(), map[], map[]) && View().Linked() && Kept(old(View()), View())
    {
      ghost var t := View();
      var temp := mem[node].right;
      ghost var b, p := mem[temp].left, mem[node].parent;
      RotateDistinct(t, node, temp, b, p);
      WriteLeft(node, temp, b, p);
      spot := LeftSpots(t, node, temp);
      LeftWritesAll(t, node, temp, b, p);
    }

    // The writes of ngx_rbtree_left_rotate
    method WriteLeft(node: Ref, temp: Ref, ghost b: Ref, ghost p: Ref)
      requires Distinct(View(), node, temp, b, p) && mem[node].right == temp && mem[temp].left == b &&
        mem[node].parent == p
      modifies this`mem, this`root
      ensures mem == LeftWrites(old(View()), node, temp, b, p) && root == if node == old(root) then temp else old(root)
    {
      mem := mem[node := mem[node].(right := mem[temp].left)];
      if mem[temp].left != sentinel {
        mem := mem[mem[temp].left := mem[mem[temp].left].(parent := node)];
      }
      mem := mem[temp := mem[temp].(parent := mem[node].parent)];
      if node == root {
        root := temp;
      } else if node == mem[mem[node].parent].left {
        mem := mem[mem[node].parent := mem[mem[node].parent].(left := temp)];
      } else {
        mem := mem[mem[node].parent := mem[mem[node].parent].(right := temp)];
      }
      mem := mem[temp := mem[temp].(left := node)];
      mem := mem[node := mem[node].(parent := temp)];
      assert mem == LeftWrites(old(View()), node, temp, b, p);
    }

    // ngx_rbtree_right_rotate
    method RightRotate(node: Ref)
      requires View().Linked() && node in spot && node in mem && mem[node].left != sentinel && mem[node].left in mem
      modifies this`mem, this`root, this`spot
      ensures node in old(mem) && old(mem)[node].left in old(mem)
      ensures RotatedRight(old(View()), View(), node, old(mem)[node].left, old(mem)[old(mem)[node].left].right,
        old(mem)[node].parent)
      ensures Tinted(old(View()), View(), map[], map[]) && View().Linked() && Kept(old(View()), View())
    {
      ghost var t := View();
      var temp := mem[node].left;
      ghost var b, p := mem[temp].right, mem[node].parent;
      RotateDistinct(t, node, temp, b, p);
      WriteRight(node, temp, b, p);
      spot := RightSpots(t, node, temp);
      RightWritesAll(t, node, temp, b, p);
    }

    // The writes of ngx_rbtree_right_rotate
    method WriteRight(node: Ref, temp: Ref, ghost b: Ref, ghost p: Ref)
      requires Distinct(View(), node, temp, b, p) && mem[node].left == temp && mem[temp].right == b &&
        mem[node].parent == p
      modifies this`mem, this`root
      ensures mem == RightWrites(old(View()), node, temp, b, p) && root == if node == old(root) then temp else old(root)
    {
      mem := mem[node := mem[node].(left := mem[temp].right)];
      if mem[temp].right != sentinel {
        mem := mem[mem[temp].right := mem[mem[temp].right].(parent := node)];
      }
      mem := mem[temp := mem[temp].(parent := mem[node].parent)];
      if node == root {
        root := temp;
      } else if node == mem[mem[node].parent].right {
        mem := mem[mem[node].parent := mem[mem[node].parent].(right := temp)];
      } else {
        mem := mem[mem[node].parent := mem[mem[node].parent].(left := temp)];
      }
      mem := mem[temp := mem[temp].(right := node)];
      mem := mem[node := mem[node].(parent := temp)];
      assert mem == RightWrites(old(View()), node, temp, b, p);
    }

    // The red-uncle case of the insert loop.
    method RedUncle(node: Ref, p: Ref, u: Ref, g: Ref)
      requires RedParent(View(), node, p, g, u) && Red(View(), u)
      modifies this`mem, this`spot
      ensures Inserting(View(), g) && Kept(old(View()), View()) && SameLinks(old(View()), View())
      ensures Size(View(), g) > Size(old(View()), node)
    {
      ghost var t := View();
      RedParentFacts(t, node, p, g, u);
      RedUnclePaints(t, node, p, u, g);
      Climb(t, node);
      Climb(t, p);
      Paint(p, false);
      Paint(u, false);
      Paint(g, true);
      spot := spot[g := spot[g].(bh := spot[g].bh + 1)];
      assert View() == RedUncleState(t, p, u, g);
      Recoloured(t, View(), node, p, u, g);
    }

    // One turn of the insert loop when the parent is a left child.
    method InsertFixupLeft(node: Ref, ghost p: Ref, ghost g: Ref, ghost u: Ref) returns (next: Ref)
      requires RedParent(View(), node, p, g, u) && mem[g].left == p
      modifies this`mem, this`root, this`spot
      ensures Inserting(View(), next) && Kept(old(View()), View())
      ensures next == root || !Red(View(), mem[next].parent) || Size(View(), next) > Size(old(View()), node)
    {
      next := node;
      ghost var t := View();
      RedParentFacts(t, node, p, g, u);
      Neighbours(t, g);
      var temp := mem[mem[mem[next].parent].parent].right;
      if mem[temp].red {
        RedUncle(next, mem[next].parent, temp, mem[mem[next].parent].parent);
        next := mem[mem[next].parent].parent;
      } else {
        if next == mem[mem[next].parent].right {
          next := mem[next].parent;
          LeftRotate(next);
          InnerTurnRedParent(t, View(), node, p, g, u, t.mem[node].left);
        }
        OuterRight(next, mem[next].parent, mem[mem[next].parent].parent, temp);
      }
    }

    // The last step of that turn: the parent turns black, the grandparent red and is rotated right.
    method OuterRight(node: Ref, p: Ref, g: Ref, ghost u: Ref)
      requires RedParent(View(), node, p, g, u) && !Red(View(), u) && mem[g].left == p && p in mem &&
        mem[p].left == node
      modifies this`mem, this`root, this`spot
      ensures Inserting(View(), node) && Kept(old(View()), View()) && mem[node].parent == p && !Red(View(), p)
    {
      ghost var t := View();
      RedParentFacts(t, node, p, g, u);
      TurnRight(g, p);
      OuterTurnRight(t, View(), node, p, g, u, t.mem[p].right, t.mem[g].parent);
    }

    // One turn of the insert loop when the parent is a right child.
    method InsertFixupRight(node: Ref, ghost p: Ref, ghost g: Ref, ghost u: Ref) returns (next: Ref)
      requires RedParent(View(), node, p, g, u) && mem[g].right == p
      modifies this`mem, this`root, this`spot
      ensures Inserting(View(), next) && Kept(old(View()), View())
      ensures next == root || !Red(View(), mem[next].parent) || Size(View(), next) > Size(old(View()), node)
    {
      next := node;
      ghost var t := View();
      RedParentFacts(t, node, p, g, u);
      Neighbours(t, g);
      var temp := mem[mem[mem[next].parent].parent].left;
      if mem[temp].red {
        RedUncle(next, mem[next].parent, temp, mem[mem[next].parent].parent);
        next := mem[mem[next].parent].parent;
      } else {
        if next == mem[mem[next].parent].left {
          next := mem[next].parent;
          RightRotate(next);
          InnerTurnRightRedParent(t, View(), node, p, g, u, t.mem[node].right);
        }
        OuterLeft(next, mem[next].parent, mem[mem[next].parent].parent, temp);
      }
    }

    method PaintPair(y: Ref, x: Ref)
      requires View().Linked() && x in mem && y in mem && x != y && x in spot && y in spot
      modifies this`mem
      ensures View().Linked() && SameLinks(old(View()), View()) && Kept(old(View()), View())
      ensures Tinted(old(View()), View(), map[y := false, x := true], map[])
    {
      ghost var t := View();
      Paint(y, false);
      Paint(x, true);
      PaintTwice(t, y, false, x, true);
      SameLinksLinked(t, View());
    }

    // A black child, a red parent, and the rotation that exchanges them
    method TurnLeft(x: Ref, y: Ref)
      requires View().Linked() && x in spot && x in mem && mem[x].right == y && y != sentinel && y in mem && y in spot
      modifies this`mem, this`root, this`spot
      ensures x in old(mem) && y in old(mem) && Kept(old(View()), View())
      ensures RotatedLeft(old(View()), View(), x, y, old(mem)[y].left, old(mem)[x].parent)
      ensures Tinted(old(View()), View(), map[y := false, x := true], map[])
    {
      ghost var t := View();
      Neighbours(t, x);
      PaintPair(y, x);
      ghost var tp := View();
      LeftRotate(x);
      RotatedLeftPainted(t, tp, View(), x, y, t.mem[y].left, t.mem[x].parent, map[y := false, x := true]);
      KeptTrans(t, tp, View());
    }

    method TurnRight(x: Ref, y: Ref)
      requires View().Linked() && x in spot && x in mem && mem[x].left == y && y != sentinel && y in mem && y in spot
      modifies this`mem, this`root, this`spot
      ensures x in old(mem) && y in old(mem) && Kept(old(View()), View())
      ensures RotatedRight(old(View()), View(), x, y, old(mem)[y].right, old(mem)[x].parent)
      ensures Tinted(old(View()), View(), map[y := false, x := true], map[])
    {
      ghost var t := View();
      Neighbours(t, x);
      PaintPair(y, x);
      ghost var tp := View();
      RightRotate(x);
      RotatedRightPainted(t, tp, View(), x, y, t.mem[y].right, t.mem[x].parent, map[y := false, x := true]);
      KeptTrans(t, tp, View());
    }

    method OuterLeft(node: Ref, p: Ref, g: Ref, ghost u: Ref)
      requires RedParent(View(), node, p, g, u) && !Red(View(), u) && mem[g].right == p && p in mem &&
        mem[p].right == node
      modifies this`mem, this`root, this`spot
      ensures Inserting(View(), node) && Kept(old(View()), View()) && mem[node].parent == p && !Red(View(), p)
    {
      ghost var t := View();
      RedParentFacts(t, node, p, g, u);
      TurnLeft(g, p);
      OuterTurn(t, View(), node, p, g, u, t.mem[p].left, t.mem[g].parent);
    }

    // The rebalancing loop of ngx_rbtree_insert.
    method InsertFixup(start: Ref)
      requires Inserting(View(), start)
      modifies this`mem, this`root, this`spot
      ensures Coloured(View()) && Kept(old(View()), View())
    {
      var node := start;
      ghost var t0 := View();
      FocusInMemory(t0, node);
      while node != root && mem[mem[node].parent].red
        invariant node in mem && root in mem && (node != root ==> mem[node].parent in mem)
        invariant Inserting(View(), node) && Kept(t0, View()) && order == old(order)
        decreases if node == root || !Red(View(), mem[node].parent) then 0 else 1 + |order| - Size(View(), node)
      {
        ghost var t := View();
        RedParentHolds(t, node);
        ghost var p := mem[node].parent;
        ghost var g := mem[p].parent;
        if mem[node].parent == mem[mem[mem[node].parent].parent].left {
          node := InsertFixupLeft(node, p, g, mem[g].right);
        } else {
          node := InsertFixupRight(node, p, g, mem[g].left);
        }
        KeptTrans(t0, t, View());
        FocusInMemory(View(), node);
      }
      ghost var t := View();
      Paint(root, false);
      InsertDone(t, View(), node);
      KeptTrans(t0, t, View());
    }

    // The walk of ngx_rbtree_insert_value and its variants down to the free pointer where node belongs.
    method FindLeaf(node: Ref) returns (temp: Ref, onLeft: bool)
      requires Valid() && root != sentinel && node in mem
      requires Ordering(less, Entries(mem, order) + {EntryAt(mem, node)})
      ensures temp in spot && View().At(temp)
      ensures if onLeft then mem[temp].left == sentinel else mem[temp].right == sentinel
      ensures PlaceFor(less, mem, order, EntryAt(mem, node), if onLeft then spot[temp].pos else spot[temp].pos + 1)
    {
      temp := root;
      ghost var t, e := View(), EntryAt(mem, node);
      assert t.At(root);
      while true
        invariant temp in spot && t.At(temp)
        invariant forall i :: 0 <= i < spot[temp].lo ==> !less(e, EntryAt(mem, order[i]))
        invariant forall i :: spot[temp].hi <= i < |order| ==> less(e, EntryAt(mem, order[i]))
        decreases Size(t, temp)
      {
        Descend(less, t, temp, e);
        Neighbours(t, temp);
        onLeft := less(Entry(mem[node].key, mem[node].str), Entry(mem[temp].key, mem[temp].str));
        var next := if onLeft then mem[temp].left else mem[temp].right;
        if next == sentinel {
          break;
        }
        temp := next;
      }
    }

    // ngx_rbtree_insert_value and its variants: the new node becomes a red leaf.
    method InsertValue(node: Ref) returns (ghost k: int)
      requires Valid() && root != sentinel && node in mem && node !in spot && node != sentinel
      requires Ordering(less, Entries(mem, order) + {EntryAt(mem, node)})
      modifies this`mem, this`order, this`spot
      ensures Inserting(View(), node) && Grown(old(View()), View(), node, k)
      ensures PlaceFor(less, old(mem), old(order), EntryAt(old(mem), node), k)
    {
      ghost var t := View();
      var temp, onLeft := FindLeaf(node);
      if onLeft {
        mem := mem[temp := mem[temp].(left := node)];
      } else {
        mem := mem[temp := mem[temp].(right := node)];
      }
      mem := mem[node := mem[node].(parent := temp, left := sentinel, right := sentinel, red := true)];
      k := if onLeft then spot[temp].pos else spot[temp].pos + 1;
      order := order[..k] + [node] + order[k..];
      spot := if onLeft then GrownLeft(t, node, k) else GrownRight(t, node, k);
      AttachedState(t, View(), node, temp, onLeft, k);
    }

    // ngx_rbtree_insert
    method Insert(node: Ref) returns (ghost k: int)
      requires Valid() && node in mem && node !in spot && node != sentinel
      requires Ordering(less, Entries(mem, order) + {EntryAt(mem, node)})
      modifies this
      ensures Valid() && Grown(old(View()), View(), node, k)
      ensures PlaceFor(less, old(mem), old(order), EntryAt(old(mem), node), k)
    {
      ghost var t := View();
      if root == sentinel {
        mem := mem[node := mem[node].(parent := NULL, left := sentinel, right := sentinel, red := false)];
        root := node;
        k, order, spot := 0, [node], map[node := Spot(0, 0, 1, 0)];
        assert forall n :: n in spot ==> View().At(n) && BlackAt(View(), n) && RedAt(View(), n, sentinel);
        assert t.spot.Keys == {} by {
          forall n ensures n !in t.spot { assert n in t.spot ==> t.At(n); }
        }
        return;
      }
      k := InsertValue(node);
      ghost var u := View();
      InsertFixup(node);
      SortedInsert(less, t.mem, mem, t.order, node, k);
      GrownKept(t, u, View(), node, k);
    }

    // ngx_rbtree_min
    method Min(start: Ref) returns (node: Ref)
      requires View().Linked() && start in spot
      ensures node in spot && View().At(node) && mem[node].left == sentinel && spot[node].pos == spot[start].lo
    {
      node := start;
      Neighbours(View(), node);
      while mem[node].left != sentinel
        invariant node in spot && View().At(node) && spot[node].lo == spot[start].lo
        decreases Size(View(), node)
      {
        Neighbours(View(), node);
        node := mem[node].left;
      }
    }

    // The sibling takes the parent's colour; the parent and the nephew turn black.
    method PaintNephews(p: Ref, w: Ref, r: Ref)
      requires View().Linked() && w in mem && p in mem && r in mem && w in spot && p in spot && r in spot && w != p &&
        w != r && p != r
      modifies this`mem
      ensures View().Linked() && SameLinks(old(View()), View()) && Kept(old(View()), View())
      ensures Tinted(old(View()), View(), map[w := old(mem)[p].red, p := false, r := false], map[])
    {
      ghost var t := View();
      mem := mem[w := mem[w].(red := mem[p].red)];
      Paint(p, false);
      Paint(r, false);
      PaintThrice(t, w, t.mem[p].red, p, r);
      SameLinksLinked(t, View());
    }

    // Black sibling with black children: it turns red.
    method TurnRed(x: Ref, p: Ref, w: Ref)
      requires Sibling(View(), x, p, w) && !Red(View(), x) && !Red(View(), w) && w in mem
      requires !Red(View(), mem[w].left) && !Red(View(), mem[w].right)
      modifies this`mem, this`spot
      ensures Deleting(View(), p) && Kept(old(View()), View()) && SameLinks(old(View()), View())
    {
      ghost var t := View();
      SiblingFacts(t, x, p, w);
      Paint(w, true);
      spot := spot[p := spot[p].(bh := spot[p].bh - 1)];
      BlackNephews(t, View(), x, p, w);
    }

    // Short node on the left, red sibling: the sibling turns black, the parent red, and the parent is rotated left.
    method FixRedSiblingLeft(x: Ref, p: Ref, w: Ref)
      requires Sibling(View(), x, p, w) && !Red(View(), x) && mem[p].left == x && Red(View(), w)
      modifies this`mem, this`root, this`spot
      ensures p in mem && Sibling(View(), x, p, mem[p].right) && mem[p].left == x && !Red(View(), x) &&
        !Red(View(), mem[p].right)
      ensures Kept(old(View()), View()) && Size(View(), x) == Size(old(View()), x)
    {
      ghost var t := View();
      SiblingFacts(t, x, p, w);
      TurnLeft(p, w);
      RedSibling(t, View(), x, p, w, t.mem[w].left, t.mem[p].parent);
    }

    // Only the inner nephew is red: it turns black, the sibling red, and the sibling is rotated right.
    method FixInnerNephewLeft(x: Ref, p: Ref, w: Ref)
      requires Sibling(View(), x, p, w) && !Red(View(), x) && mem[p].left == x && !Red(View(), w) && w in mem
      requires !Red(View(), mem[w].right) && Red(View(), mem[w].left)
      modifies this`mem, this`root, this`spot
      ensures p in mem && w in old(mem) && mem[p].right == old(mem)[w].left && mem[p].left == x && mem[p].right in mem
      ensures Sibling(View(), x, p, mem[p].right) && !Red(View(), x) && !Red(View(), mem[p].right) &&
        mem[mem[p].right].right == w && Red(View(), w)
      ensures Kept(old(View()), View())
    {
      ghost var t := View();
      NephewFacts(t, x, p, w);
      var y := mem[w].left;
      TurnRight(w, y);
      InnerNephewRight(t, View(), x, p, w, y, t.mem[y].right);
    }

    // The colours and the rotation of the outer-nephew step; `tp` is the state between them.
    method TurnNephewLeft(p: Ref, w: Ref, r: Ref) returns (ghost tp: State)
      requires View().Linked() && w in mem && p in mem && r in mem && w in spot && p in spot && r in spot
      requires w != p && w != r && p != r && w != sentinel && mem[p].right == w
      modifies this`mem, this`root, this`spot
      ensures w in old(mem) && p in old(mem)
      ensures SameLinks(old(View()), tp) && Kept(old(View()), tp)
      ensures Tinted(old(View()), tp, map[w := old(mem)[p].red, p := false, r := false], map[])
      ensures RotatedLeft(tp, View(), p, w, old(mem)[w].left, old(mem)[p].parent)
      ensures Tinted(tp, View(), map[], map[]) && Kept(tp, View())
    {
      PaintNephews(p, w, r);
      tp := View();
      LeftRotate(p);
    }

    method TurnNephewRight(p: Ref, w: Ref, r: Ref) returns (ghost tp: State)
      requires View().Linked() && w in mem && p in mem && r in mem && w in spot && p in spot && r in spot
      requires w != p && w != r && p != r && w != sentinel && mem[p].left == w
      modifies this`mem, this`root, this`spot
      ensures w in old(mem) && p in old(mem)
      ensures SameLinks(old(View()), tp) && Kept(old(View()), tp)
      ensures Tinted(old(View()), tp, map[w := old(mem)[p].red, p := false, r := false], map[])
      ensures RotatedRight(tp, View(), p, w, old(mem)[w].right, old(mem)[p].parent)
      ensures Tinted(tp, View(), map[], map[]) && Kept(tp, View())
    {
      PaintNephews(p, w, r);
      tp := View();
      RightRotate(p);
    }

    ghost method Reheight(w: Ref, p: Ref, h: int)
      requires w in spot && p in spot && w != p
      modifies this`spot
      ensures Reheighted(old(View()), View(), w, p, h)
    {
      spot := spot[w := spot[w].(bh := h)][p := spot[p].(bh := h - 1)];
    }

    // The outer nephew is red: the sibling takes the parent's colour, parent and nephew turn black, and the parent is
    // rotated left.
    method FixOuterNephewLeft(x: Ref, p: Ref, w: Ref)
      requires Sibling(View(), x, p, w) && !Red(View(), x) && mem[p].left == x && !Red(View(), w) && w in mem &&
        Red(View(), mem[w].right)
      modifies this`mem, this`root, this`spot
      ensures Deleting(View(), root) && Kept(old(View()), View())
    {
      ghost var t := View();
      NephewFacts(t, x, p, w);
      ghost var tp := TurnNephewLeft(p, w, mem[w].right);
      ghost var tr := View();
      Reheight(w, p, t.spot[p].bh);
      OuterNephewLeftSteps(t, tp, tr, View(), x, p, w, t.mem[w].right);
    }

    // One turn of the delete loop when temp is a left child.
    method DeleteFixupLeft(temp: Ref, ghost p: Ref) returns (next: Ref)
      requires p in mem && Sibling(View(), temp, p, mem[p].right) && !Red(View(), temp) && mem[p].left == temp
      modifies this`mem, this`root, this`spot
      ensures Deleting(View(), next) && Kept(old(View()), View())
      ensures next == root || Red(View(), next) || Size(View(), next) > Size(old(View()), temp)
    {
      ghost var t := View();
      var w := mem[mem[temp].parent].right;
      SiblingFacts(t, temp, p, w);
      if mem[w].red {
        FixRedSiblingLeft(temp, mem[temp].parent, w);
        w := mem[mem[temp].parent].right;
        SiblingFacts(View(), temp, p, w);
      }
      Neighbours(View(), w);
      if !mem[mem[w].left].red && !mem[mem[w].right].red {
        ShortClimb(View(), temp, p, w);
        TurnRed(temp, mem[temp].parent, w);
        next := mem[temp].parent;
      } else {
        if !mem[mem[w].right].red {
          FixInnerNephewLeft(temp, mem[temp].parent, w);
          w := mem[mem[temp].parent].right;
        }
        FixOuterNephewLeft(temp, mem[temp].parent, w);
        next := root;
      }
    }

    // Short node on the right, red sibling: the sibling turns black, the parent red, and the parent is rotated right.
    method FixRedSiblingRight(x: Ref, p: Ref, w: Ref)
      requires Sibling(View(), x, p, w) && !Red(View(), x) && mem[p].right == x && Red(View(), w)
      modifies this`mem, this`root, this`spot
      ensures p in mem && Sibling(View(), x, p, mem[p].left) && mem[p].right == x && !Red(View(), x) &&
        !Red(View(), mem[p].left)
      ensures Kept(old(View()), View()) && Size(View(), x) == Size(old(View()), x)
    {
      ghost var t := View();
      SiblingFacts(t, x, p, w);
      TurnRight(p, w);
      RedSiblingRight(t, View(), x, p, w, t.mem[w].right, t.mem[p].parent);
    }

    // Only the inner nephew is red: it turns black, the sibling red, and the sibling is rotated left.
    method FixInnerNephewRight(x: Ref, p: Ref, w: Ref)
      requires Sibling(View(), x, p, w) && !Red(View(), x) && mem[p].right == x && !Red(View(), w) && w in mem
      requires !Red(View(), mem[w].left) && Red(View(), mem[w].right)
      modifies this`mem, this`root, this`spot
      ensures p in mem && w in old(mem) && mem[p].left == old(mem)[w].right && mem[p].right == x && mem[p].left in mem
      ensures Sibling(View(), x, p, mem[p].left) && !Red(View(), x) && !Red(View(), mem[p].left) &&
        mem[mem[p].left].left == w && Red(View(), w)
      ensures Kept(old(View()), View())
    {
      ghost var t := View();
      NephewFacts(t, x, p, w);
      var y := mem[w].right;
      TurnLeft(w, y);
      InnerNephew(t, View(), x, p, w, y, t.mem[y].left);
    }

    // The outer nephew is red: the sibling takes the parent's colour, parent and nephew turn black, and the parent is
    // rotated right.
    method FixOuterNephewRight(x: Ref, p: Ref, w: Ref)
      requires Sibling(View(), x, p, w) && !Red(View(), x) && mem[p].right == x && !Red(View(), w) && w in mem &&
        Red(View(), mem[w].left)
      modifies this`mem, this`root, this`spot
      ensures Deleting(View(), root) && Kept(old(View()), View())
    {
      ghost var t := View();
      NephewFacts(t, x, p, w);
      ghost var tp := TurnNephewRight(p, w, mem[w].left);
      ghost var tr := View();
      Reheight(w, p, t.spot[p].bh);
      OuterNephewRightSteps(t, tp, tr, View(), x, p, w, t.mem[w].left);
    }

    // One turn of the delete loop when temp is a right child.
    method DeleteFixupRight(temp: Ref, ghost p: Ref) returns (next: Ref)
      requires p in mem && Sibling(View(), temp, p, mem[p].left) && !Red(View(), temp) && mem[p].right == temp
      modifies this`mem, this`root, this`spot
      ensures Deleting(View(), next) && Kept(old(View()), View())
      ensures next == root || Red(View(), next) || Size(View(), next) > Size(old(View()), temp)
    {
      ghost var t := View();
      var w := mem[mem[temp].parent].left;
      SiblingFacts(t, temp, p, w);
      if mem[w].red {
        FixRedSiblingRight(temp, mem[temp].parent, w);
        w := mem[mem[temp].parent].left;
        SiblingFacts(View(), temp, p, w);
      }
      Neighbours(View(), w);
      if !mem[mem[w].left].red && !mem[mem[w].right].red {
        ShortClimb(View(), temp, p, w);
        TurnRed(temp, mem[temp].parent, w);
        next := mem[temp].parent;
      } else {
        if !mem[mem[w].left].red {
          FixInnerNephewRight(temp, mem[temp].parent, w);
          w := mem[mem[temp].parent].left;
        }
        FixOuterNephewRight(temp, mem[temp].parent, w);
        next := root;
      }
    }

    // The fixup loop of ngx_rbtree_delete.
    method DeleteFixup(start: Ref)
      requires Deleting(View(), start)
      modifies this`mem, this`root, this`spot
      ensures Coloured(View()) && Kept(old(View()), View())
    {
      var temp := start;
      ghost var t0 := View();
      ShortInMemory(t0, temp);
      while temp != root && !mem[temp].red
        invariant Deleting(View(), temp) && temp in mem && Kept(t0, View())
        decreases if temp == root || Red(View(), temp) then 0 else 1 + |order| - Size(View(), temp)
      {
        ghost var t := View();
        ShortSibling(t, temp);
        ghost var p := mem[temp].parent;
        if temp == mem[mem[temp].parent].left {
          temp := DeleteFixupLeft(temp, p);
        } else {
          temp := DeleteFixupRight(temp, p);
        }
        KeptTrans(t0, t, View());
        ShortInMemory(View(), temp);
      }
      ghost var t := View();
      PaintDone(temp);
      KeptTrans(t0, t, View());
    }

    method PaintDone(temp: Ref)
      requires Deleting(View(), temp) && temp in mem && (temp == root || mem[temp].red)
      modifies this`mem
      ensures Coloured(View()) && Kept(old(View()), View())
    {
      ghost var t := View();
      Paint(temp, false);
      assert SameLinks(t, View()) && Tinted(t, View(), map[temp := false], map[]);
      DeleteDone(t, View(), temp);
    }

    // The debugging writes at the end of ngx_rbtree_delete.
    method Clear(node: Ref)
      requires node in mem
      modifies this`mem
      ensures mem == old(mem)[node := old(mem)[node].(left := NULL, right := NULL, parent := NULL, key := 0)]
    {
      mem := mem[node := mem[node].(left := NULL, right := NULL, parent := NULL, key := 0)];
    }

    // The binary-tree part of ngx_rbtree_delete for a node with a free child pointer, not the root.
    method UnlinkSelf(node: Ref, temp: Ref)
      requires Coloured(View()) && node in spot && node in mem && node != root && temp in mem
      requires (mem[node].left == sentinel && mem[node].right == temp) ||
        (mem[node].right == sentinel && mem[node].left == temp)
      modifies this
      ensures if Red(old(View()), node) then Coloured(View()) else Deleting(View(), temp)
      ensures Shrunk(old(View()), View(), node) && Cleared(old(mem), mem, node)
    {
      ghost var t := View();
      Neighbours(t, node);
      ghost var p := mem[node].parent;
      Bypass(node, temp);
      order, spot := Remove(order, spot[node].pos), SpliceState(t, node, temp, p).spot;
      Clear(node);
      UnsplicedColours(t, View(), node, temp, p);
    }

    // The parent of the node and its child are linked.
    method Bypass(node: Ref, temp: Ref)
      requires node in mem && temp in mem && mem[node].parent in mem && mem[node].parent != node && temp != node &&
        mem[node].parent != temp
      modifies this`mem
      ensures var p := old(mem[node].parent);
              mem == old(mem)[p := if old(mem)[p].left == node then old(mem)[p].(left := temp)
                else old(mem)[p].(right := temp)][temp := old(mem[temp]).(parent := p)]
    {
      if node == mem[mem[node].parent].left {
        mem := mem[mem[node].parent := mem[mem[node].parent].(left := temp)];
      } else {
        mem := mem[mem[node].parent := mem[mem[node].parent].(right := temp)];
      }
      mem := mem[temp := mem[temp].(parent := mem[node].parent)];
    }

    // The successor is spliced out ...
    method SpliceSubst(node: Ref, subst: Ref, temp: Ref)
      requires subst in mem && temp in mem && mem[subst].parent in mem && mem[subst].parent != subst &&
        temp != subst && mem[subst].parent != temp
      modifies this`mem
      ensures mem == SpliceWrites(old(mem), node, subst, temp, old(mem)[subst].parent)
    {
      if subst == mem[mem[subst].parent].left {
        mem := mem[mem[subst].parent := mem[mem[subst].parent].(left := temp)];
      } else {
        mem := mem[mem[subst].parent := mem[mem[subst].parent].(right := temp)];
      }
      if mem[subst].parent == node {
        mem := mem[temp := mem[temp].(parent := subst)];
      } else {
        mem := mem[temp := mem[temp].(parent := mem[subst].parent)];
      }
    }

    // ... and takes the links and the colour of the deleted node.
    method CopySubst(node: Ref, subst: Ref)
      requires PlaceApart(mem, node, subst, node == root)
      modifies this`mem, this`root
      ensures mem == CopyWrites(old(mem), node, subst, node == old(root))
      ensures root == if node == old(root) then subst else old(root)
    {
      mem := mem[subst := mem[subst].(left := mem[node].left, right := mem[node].right, parent := mem[node].parent,
        red := mem[node].red)];
      if node == root {
        root := subst;
      } else {
        if node == mem[mem[node].parent].left {
          mem := mem[mem[node].parent := mem[mem[node].parent].(left := subst)];
        } else {
          mem := mem[mem[node].parent := mem[mem[node].parent].(right := subst)];
        }
      }
    }

    // The children follow.
    method AdoptSubst(subst: Ref)
      requires subst in mem && mem[subst].left in mem && mem[subst].right in mem && mem[subst].left != subst &&
        mem[subst].right != subst
      modifies this`mem
      ensures mem == AdoptWrites(old(mem), sentinel, subst)
    {
      if mem[subst].left != sentinel {
        mem := mem[mem[subst].left := mem[mem[subst].left].(parent := subst)];
      }
      if mem[subst].right != sentinel {
        mem := mem[mem[subst].right := mem[mem[subst].right].(parent := subst)];
      }
    }

    method RewireSubst(node: Ref, subst: Ref, temp: Ref)
      requires subst in mem && SubstReady(View(), node, subst, temp, mem[subst].parent)
      modifies this`mem, this`root
      ensures mem == AdoptWrites(CopyWrites(SpliceWrites(old(mem), node, subst, temp, old(mem)[subst].parent), node,
        subst, node == old(root)), sentinel, subst)
      ensures root == if node == old(root) then subst else old(root)
    {
      SpliceSubst(node, subst, temp);
      CopySubst(node, subst);
      AdoptSubst(subst);
    }

    // The binary-tree part of ngx_rbtree_delete when the in-order successor takes the node's place.
    method UnlinkSubst(node: Ref, subst: Ref, temp: Ref)
      requires Coloured(View()) && Successor(View(), node, subst) && mem[subst].right == temp
      modifies this
      ensures if Red(old(View()), subst) then Coloured(View()) else Deleting(View(), temp)
      ensures Shrunk(old(View()), View(), node) && Cleared(old(mem), mem, node)
    {
      ghost var t := View();
      ghost var p := mem[subst].parent;
      SubstIsReady(t, node, subst, temp, p);
      RewireSubst(node, subst, temp);
      order, spot := Remove(order, spot[node].pos), SubstSpots(SpliceState(t, subst, temp, p), node, subst);
      RewiredNode(t, mem, node, subst, temp, p);
      Clear(node);
      SubstitutedOk(t, View(), node, subst, temp, p);
    }

    // ngx_rbtree_delete
    method Delete(node: Ref)
      requires Valid() && node in spot
      modifies this
      ensures Valid() && Shrunk(old(View()), View(), node) && Cleared(old(mem), mem, node)
    {
      ghost var t := View();
      Neighbours(t, node);
      var subst, temp;
      if mem[node].left == sentinel {
        temp := mem[node].right;
        subst := node;
      } else if mem[node].right == sentinel {
        temp := mem[node].left;
        subst := node;
      } else {
        subst := Min(mem[node].right);
        temp := mem[subst].left;
        if temp == sentinel {
          temp := mem[subst].right;
        }
      }
      if subst == root {
        TakeRoot(node, temp);
        SortedRemove(less, t, View(), node);
        return;
      }
      var red := mem[subst].red;
      if subst == node {
        UnlinkSelf(node, temp);
      } else {
        UnlinkSubst(node, subst, temp);
      }
      ghost var u := View();
      if !red {
        DeleteFixup(temp);
        ShrunkKept(t, u, View(), node);
      }
      SortedRemove(less, t, View(), node);
    }

    // The branch of ngx_rbtree_delete for a root with a free child pointer.
    method TakeRoot(node: Ref, temp: Ref)
      requires Coloured(View()) && node in spot && node in mem && node == root && temp in mem && temp != node
      requires (mem[node].left == sentinel && mem[node].right == temp) ||
        (mem[node].right == sentinel && mem[node].left == temp)
      modifies this
      ensures Coloured(View()) && Shrunk(old(View()), View(), node) && Cleared(old(mem), mem, node)
      ensures temp in mem && mem[temp].parent == old(mem)[temp].parent
    {
      ghost var t := View();
      assert t.At(node);
      root := temp;
      Paint(temp, false);
      Clear(node);
      order, spot := Remove(order, spot[node].pos), SpliceState(t, node, temp, node).spot;
      RootTakenColours(t, View(), node, temp);
    }
  }
}
