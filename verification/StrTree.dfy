/** The comparisons used with the red-black tree, whole runs of inserts and deletes, and
    the string lookup of nginx/src/core/ngx_string.c. */
module StrTree {
  import opened Basics
  import opened RbLinks
  import opened RbColour
  import opened RbUnlink
  import opened RbTree
  import opened RbShape

  // ngx_memcmp(a, b, n) < 0 for buffers of the same length n.
  predicate MemLess(a: seq<nat>, b: seq<nat>)
    requires |a| == |b|
  {
    a != [] && (a[0] < b[0] || (a[0] == b[0] && MemLess(a[1..], b[1..])))
  }

  // ngx_rbtree_insert_value goes left when this holds.
  predicate KeyLess(a: Entry, b: Entry) {
    a.key < b.key
  }

  // ngx_str_rbtree_insert_value goes left when this holds.
  predicate StrLess(a: Entry, b: Entry) {
    if a.key != b.key then a.key < b.key
    else if |a.str| != |b.str| then |a.str| < |b.str|
    else MemLess(a.str, b.str)
  }

  lemma {:induction false} MemLessOrder(a: seq<nat>, b: seq<nat>, c: seq<nat>)
    requires |a| == |b| == |c|
    ensures !(MemLess(a, b) && MemLess(b, a))
    ensures a == b || MemLess(a, b) || MemLess(b, a)
    ensures MemLess(a, b) ==> MemLess(a, c) || MemLess(c, b)
    ensures !MemLess(a, a)
  {
    if a != [] {
      MemLessOrder(a[1..], b[1..], c[1..]);
      assert a == [a[0]] + a[1..] && b == [b[0]] + b[1..];
    }
  }

  lemma StrLessOrder(a: Entry, b: Entry, c: Entry)
    ensures StrLess(a, b) ==> !StrLess(b, a)
    ensures StrLess(a, b) ==> StrLess(a, c) || StrLess(c, b)
    ensures StrLess(a, b) || StrLess(b, a) || a == b
  {
    if |a.str| == |b.str| {
      MemLessOrder(a.str, b.str, if |c.str| == |a.str| then c.str else a.str);
    }
  }

  lemma KeyLessOrdering(es: set<Entry>)
    ensures Ordering(KeyLess, es)
  {}

  lemma StrLessOrdering(es: set<Entry>)
    ensures Ordering(StrLess, es)
  {
    forall a, b, c | a in es && b in es && c in es
      ensures StrLess(a, b) ==> !StrLess(b, a) && (StrLess(a, c) || StrLess(c, b))
    {
      StrLessOrder(a, b, c);
    }
  }

  // An entry that compares below or above the one at temp compares so with the whole side of the walk.
  lemma Narrow(t: State, temp: Ref, e: Entry)
    requires t.Linked() && Sorted(StrLess, t.mem, t.order) && temp in t.spot && temp in t.mem
    ensures 0 <= t.spot[temp].pos < |t.order|
    ensures StrLess(e, EntryAt(t.mem, temp)) ==>
      forall i :: t.spot[temp].pos <= i < |t.order| ==> EntryAt(t.mem, t.order[i]) != e
    ensures StrLess(EntryAt(t.mem, temp), e) ==>
      forall i :: 0 <= i <= t.spot[temp].pos ==> EntryAt(t.mem, t.order[i]) != e
  {
    StrLessOrdering(Entries(t.mem, t.order) + {e});
    Descend(StrLess, t, temp, e);
    StrLessOrder(EntryAt(t.mem, temp), e, e);
    assert t.At(temp);
    var k, x := t.spot[temp].pos, EntryAt(t.mem, temp);
    forall i | 0 <= i < |t.order| && EntryAt(t.mem, t.order[i]) == e
      ensures StrLess(e, x) ==> i < k
      ensures StrLess(x, e) ==> k < i
    {
      StrLessOrder(e, e, e);
      assert i < k ==> !StrLess(x, e);
    }
  }

  // ngx_str_rbtree_lookup: NULL exactly when no node of the tree has this hash and these bytes.
  method Lookup(tree: Tree, val: seq<nat>, hash: nat) returns (r: Ref)
    requires tree.Valid() && forall a, b :: tree.less(a, b) == StrLess(a, b)
    ensures r != NULL ==> r in tree.spot && r in tree.mem && tree.mem[r].key == hash && tree.mem[r].str == val
    ensures r == NULL ==> forall n :: n in tree.spot && n in tree.mem ==>
      !(tree.mem[n].key == hash && tree.mem[n].str == val)
  {
    ghost var t, e := tree.View(), Entry(hash, val);
    var node, sentinel := tree.root, tree.sentinel;
    assert node != sentinel ==> t.At(node);
    ghost var lo, hi := 0, |tree.order|;
    while node != sentinel
      invariant 0 <= lo <= hi <= |tree.order|
      invariant if node == sentinel then lo == hi else t.At(node) && t.spot[node].lo == lo && t.spot[node].hi == hi
      invariant forall i :: 0 <= i < lo || hi <= i < |tree.order| ==> EntryAt(t.mem, tree.order[i]) != e
      decreases hi - lo
    {
      Narrow(t, node, e);
      Neighbours(t, node);
      StrLessOrder(e, EntryAt(t.mem, node), e);
      var n := tree.mem[node];
      if hash != n.key {
        if hash < n.key { hi := t.spot[node].pos; node := n.left; }
          else { lo := t.spot[node].pos + 1; node := n.right; }
        continue;
      }
      if |val| != |n.str| {
        if |val| < |n.str| { hi := t.spot[node].pos; node := n.left; }
          else { lo := t.spot[node].pos + 1; node := n.right; }
        continue;
      }
      if MemLess(val, n.str) {
        hi := t.spot[node].pos;
        node := n.left;
        continue;
      }
      if MemLess(n.str, val) {
        lo := t.spot[node].pos + 1;
        node := n.right;
        continue;
      }
      return node;
    }
    forall n | n in tree.spot && n in tree.mem ensures EntryAt(t.mem, n) != e {
      assert t.At(n);
    }
    return NULL;
  }

  // ---- whole runs ----

  datatype Op = Add(node: Ref, entry: Entry) | Del(node: Ref)

  // A run inserts nodes that are out of the tree, after setting their key and string, and deletes nodes that are in it.
  ghost predicate Legal(ops: seq<Op>, live: map<Ref, Entry>, nodes: set<Ref>) {
    ops == [] ||
    match ops[0]
    case Add(n, e) => n in nodes && n !in live && Legal(ops[1..], live[n := e], nodes)
    case Del(n) => n in live && Legal(ops[1..], live - {n}, nodes)
  }

  // The entries of the nodes inserted and not deleted since.
  ghost function Live(ops: seq<Op>, live: map<Ref, Entry>): map<Ref, Entry> {
    if ops == [] then live else Live(ops[1..], After(ops[0], live))
  }

  ghost function After(op: Op, live: map<Ref, Entry>): map<Ref, Entry> {
    match op
    case Add(n, e) => live[n := e]
    case Del(n) => live - {n}
  }

  ghost predicate Holds(t: State, live: map<Ref, Entry>) {
    t.spot.Keys == live.Keys && forall n :: n in live ==> n in t.mem && EntryAt(t.mem, n) == live[n]
  }

  // Each node of the tree stands exactly once in the in-order sequence.
  lemma OrderIsNodes(t: State)
    requires t.Linked()
    ensures forall n :: n in t.order <==> n in t.spot
    ensures forall i, j :: 0 <= i < j < |t.order| ==> t.order[i] != t.order[j]
  {
    forall n | n in t.spot ensures n in t.order {
      assert t.At(n);
    }
  }

  // Any run of inserts and deletes ends in a sorted red-black tree whose in-order walk has exactly the
  // inserted-minus-deleted nodes, each once and with the entry it was given, and whose height is at most
  // 2 * log2(n + 1).
  method Run(tree: Tree, ops: seq<Op>, ghost live: map<Ref, Entry>)
    requires tree.Valid() && Holds(tree.View(), live) && Legal(ops, live, tree.mem.Keys - {tree.sentinel})
    requires forall es: set<Entry> :: Ordering(tree.less, es)
    modifies tree
    ensures tree.Valid() && Holds(tree.View(), Live(ops, live)) && Sorted(tree.less, tree.mem, tree.order)
    ensures forall n :: n in tree.order <==> n in Live(ops, live)
    ensures forall i, j :: 0 <= i < j < |tree.order| ==> tree.order[i] != tree.order[j]
    ensures var s := ShapeOf(tree.View(), tree.root);
      RedBlack(s) && InOrder(s) == tree.order && Pow2(Height(s)) <= (|tree.order| + 1) * (|tree.order| + 1)
  {
    ApplyAll(tree, ops, live);
    Ends(tree, Live(ops, live));
  }

  lemma Ends(tree: Tree, live: map<Ref, Entry>)
    requires tree.Valid() && Holds(tree.View(), live)
    ensures Sorted(tree.less, tree.mem, tree.order) && forall n :: n in tree.order <==> n in live
    ensures forall i, j :: 0 <= i < j < |tree.order| ==> tree.order[i] != tree.order[j]
    ensures var s := ShapeOf(tree.View(), tree.root);
      RedBlack(s) && InOrder(s) == tree.order && Pow2(Height(s)) <= (|tree.order| + 1) * (|tree.order| + 1)
  {
    Conclusion(tree.View());
  }

  method ApplyAll(tree: Tree, ops: seq<Op>, ghost live: map<Ref, Entry>)
    requires tree.Valid() && Holds(tree.View(), live) && Legal(ops, live, tree.mem.Keys - {tree.sentinel})
    requires forall es: set<Entry> :: Ordering(tree.less, es)
    modifies tree
    ensures tree.Valid() && Holds(tree.View(), Live(ops, live))
  {
    var i := 0;
    ghost var now, nodes := live, tree.mem.Keys - {tree.sentinel};
    assert ops[0..] == ops;
    while i < |ops|
      invariant 0 <= i <= |ops| && tree.Valid() && Holds(tree.View(), now) && tree.mem.Keys - {tree.sentinel} == nodes
      invariant Legal(ops[i..], now, nodes) && Live(ops[i..], now) == Live(ops, live)
    {
      assert ops[i..][1..] == ops[i + 1..] && ops[i..][0] == ops[i];
      Apply(tree, ops[i], now);
      now := After(ops[i], now);
      i := i + 1;
    }
  }

  lemma Conclusion(t: State)
    requires Coloured(t)
    ensures forall n :: n in t.order <==> n in t.spot
    ensures forall i, j :: 0 <= i < j < |t.order| ==> t.order[i] != t.order[j]
    ensures t.root == t.nil || t.root in t.spot
    ensures var s := ShapeOf(t, t.root);
      RedBlack(s) && InOrder(s) == t.order && Pow2(Height(s)) <= (|t.order| + 1) * (|t.order| + 1)
  {
    OrderIsNodes(t);
    ColouredIsRedBlack(t);
    LogarithmicHeight(t);
  }

  method Apply(tree: Tree, op: Op, ghost live: map<Ref, Entry>)
    requires tree.Valid() && Holds(tree.View(), live) && Legal([op], live, tree.mem.Keys - {tree.sentinel})
    requires forall es: set<Entry> :: Ordering(tree.less, es)
    modifies tree
    ensures tree.Valid() && tree.mem.Keys == old(tree.mem.Keys) && Holds(tree.View(), After(op, live))
  {
    match op {
      case Add(n, e) =>
        SetEntry(tree, n, e);
        ghost var k := tree.Insert(n);
      case Del(n) =>
        tree.Delete(n);
    }
  }

  // A tree of numbers, from its beginning
  method NumberTree(mem: map<Ref, Cell>, s: Ref, ops: seq<Op>) returns (tree: Tree)
    requires s in mem && NULL !in mem && Legal(ops, map[], mem.Keys - {s})
    ensures tree.Valid() && Holds(tree.View(), Live(ops, map[]))
    ensures forall i, j :: 0 <= i < j < |tree.order| && tree.order[i] in tree.mem && tree.order[j] in tree.mem ==>
      tree.mem[tree.order[i]].key <= tree.mem[tree.order[j]].key
  {
    tree := new Tree(mem, s, KeyLess);
    forall es: set<Entry> ensures Ordering(tree.less, es) { KeyLessOrdering(es); }
    assert tree.mem.Keys == mem.Keys;
    Run(tree, ops, map[]);
  }

  // A tree of strings: after any run from its beginning, the lookup finds a node if and only if an entry with this hash
  // and these bytes was inserted and not deleted, and then one that has them.
  method StringTree(mem: map<Ref, Cell>, s: Ref, ops: seq<Op>, val: seq<nat>, hash: nat) returns (tree: Tree, r: Ref)
    requires s in mem && NULL !in mem && Legal(ops, map[], mem.Keys - {s})
    ensures tree.Valid() && Holds(tree.View(), Live(ops, map[]))
    ensures r != NULL ==> r in Live(ops, map[]) && Live(ops, map[])[r] == Entry(hash, val)
    ensures r == NULL ==> forall n :: n in Live(ops, map[]) ==> Live(ops, map[])[n] != Entry(hash, val)
  {
    tree := new Tree(mem, s, StrLess);
    forall es: set<Entry> ensures Ordering(tree.less, es) { StrLessOrdering(es); }
    assert tree.mem.Keys == mem.Keys;
    Run(tree, ops, map[]);
    r := Lookup(tree, val, hash);
  }

  // The owner of a node outside the tree sets what it is inserted with.
  method SetEntry(tree: Tree, n: Ref, e: Entry)
    requires tree.Valid() && n in tree.mem && n !in tree.spot && n != tree.sentinel
    modifies tree
    ensures tree.Valid() && tree.mem == old(tree.mem)[n := old(tree.mem)[n].(key := e.key, str := e.str)]
    ensures tree.spot == old(tree.spot) && tree.order == old(tree.order) && tree.root == old(tree.root)
  {
    ghost var t := tree.View();
    tree.mem := tree.mem[n := tree.mem[n].(key := e.key, str := e.str)];
    OutsideCell(t, tree.View(), n);
  }

  // The owner of a node outside the tree sets its key before inserting it.
  method SetKey(tree: Tree, n: Ref, key: nat)
    requires tree.Valid() && n in tree.mem && n !in tree.spot && n != tree.sentinel
    modifies tree
    ensures tree.Valid() && tree.mem == old(tree.mem)[n := old(tree.mem)[n].(key := key)]
    ensures tree.spot == old(tree.spot) && tree.order == old(tree.order) && tree.root == old(tree.root)
  {
    ghost var t := tree.View();
    tree.mem := tree.mem[n := tree.mem[n].(key := key)];
    OutsideCell(t, tree.View(), n);
  }

  lemma OutsideCell(t: State, t': State, n: Ref)
    requires Coloured(t) && n in t.mem && n !in t.spot && n != t.nil && t'.mem.Keys == t.mem.Keys
    requires t' == t.(mem := t.mem[n := t'.mem[n]])
    ensures Coloured(t')
  {
    forall x | x in t.spot ensures t'.At(x) && BlackAt(t', x) && RedAt(t', x, t.nil) {
      Neighbours(t, x);
      assert BlackAt(t, x) && RedAt(t, x, t.nil);
    }
  }
}
