/** The binary trie over 32-bit keys of nginx/src/core/ngx_radix_tree.c.

    Node addresses are integers, `mem` is the memory of the nodes, and 0 is the null pointer.  The ghost map `at`
    gives the node on each path from the root. */
module Radix {
  import opened Basics

  type Ref = int

  const NULL: Ref := 0
  const NO_VALUE: int := -1
  const NODE := 32
  const PAGE := 4096

  datatype Node = Node(right: Ref, left: Ref, parent: Ref, value: int)

  // A path from the root: the bits of a prefix, the last one outermost.
  datatype Path = Top | Down(up: Path, right: bool)

  function Depth(p: Path): nat {
    if p.Top? then 0 else Depth(p.up) + 1
  }

  // A 32-bit word by its bits, the most significant first.  The bit under test is named by its position, which is
  // 32 once it has been shifted out.
  type Word = w: seq<bool> | |w| == 32 witness seq(32, _ => false)

  predicate Test(w: Word, bit: nat) {
    bit < 32 && w[bit]
  }

  // The first n bits of a key
  function Prefix(key: Word, n: nat): Path {
    if n == 0 then Top else Down(Prefix(key, n - 1), Test(key, n - 1))
  }

  lemma {:induction false} PrefixDepth(key: Word, n: nat)
    ensures Depth(Prefix(key, n)) == n
  {
    if n > 0 { PrefixDepth(key, n - 1); }
  }

  // The mask begins with n ones and no more; what follows them is not looked at.
  ghost predicate Ones(mask: Word, n: nat) {
    n <= 32 && (forall i :: 0 <= i < n ==> Test(mask, i)) && !Test(mask, n)
  }

  // Every mask has such a length.
  ghost function Length(mask: Word): (n: nat)
    ensures Ones(mask, n)
  {
    LengthFrom(mask, 0)
  }

  ghost function LengthFrom(mask: Word, i: nat): (n: nat)
    requires i <= 32 && forall j :: 0 <= j < i ==> Test(mask, j)
    ensures Ones(mask, n)
    decreases 32 - i
  {
    if Test(mask, i) then LengthFrom(mask, i + 1) else i
  }

  datatype State = State(
    mem: map<Ref, Node>,
    at: map<Path, Ref>,
    path: map<Ref, Path>,
    free: seq<Ref>,
    values: map<Path, int>)

  ghost function Child(s: State, p: Path, right: bool): Ref {
    if Down(p, right) in s.at then s.at[Down(p, right)] else NULL
  }

  ghost predicate NodeAt(s: State, p: Path) {
    && p in s.at && s.at[p] in s.mem && s.at[p] != NULL && s.at[p] in s.path && s.path[s.at[p]] == p && Depth(p) <= 32
    && var n := s.mem[s.at[p]];
    && (if n.value == NO_VALUE then p !in s.values else p in s.values && s.values[p] == n.value)
    && n.right == Child(s, p, true) && n.left == Child(s, p, false)
    && if p.Top? then n.parent == NULL else p.up in s.at && n.parent == s.at[p.up]
  }

  // The k-th node of the free list leads to the next one.
  ghost predicate FreeAt(s: State, k: int) {
    0 <= k < |s.free| ==>
      && s.free[k] in s.mem && s.free[k] != NULL && s.free[k] !in s.path
      && s.mem[s.free[k]].right == if k + 1 < |s.free| then s.free[k + 1] else NULL
  }

  ghost predicate TreeInv(s: State) {
    && Top in s.at && NULL !in s.path && s.values.Keys <= s.at.Keys
    && (forall p {:trigger NodeAt(s, p)} :: p in s.at ==> NodeAt(s, p))
    && (forall r :: r in s.path ==> s.path[r] in s.at && s.at[s.path[r]] == r)
  }

  // `spare` is a node in the hands of an operation, or NULL.  Every node is in the tree, on the free list, or spare.
  ghost predicate FreeInv(s: State, spare: Ref) {
    && NoDup(s.free) && NULL !in s.free && NULL !in s.mem && (forall k {:trigger FreeAt(s, k)} :: FreeAt(s, k))
    && spare !in s.path && spare !in s.free && (spare != NULL ==> spare in s.mem)
    && (forall r :: r in s.mem ==> r in s.path || r in s.free || r == spare)
  }

  ghost predicate Inv(s: State, spare: Ref) {
    TreeInv(s) && FreeInv(s, spare)
  }

  ghost predicate Leaf(s: State, p: Path) {
    Down(p, true) !in s.at && Down(p, false) !in s.at
  }

  // A node for the next bit is linked in.
  ghost function Grown(s: State, p: Path, right: bool, r: Ref): State
    requires p in s.at && s.at[p] in s.mem
  {
    var n := s.at[p];
    var m := s.mem[r := Node(NULL, NULL, n, NO_VALUE)];
    s.(at := s.at[Down(p, right) := r], path := s.path[r := Down(p, right)],
       mem := m[n := if right then s.mem[n].(right := r) else s.mem[n].(left := r)])
  }

  lemma GrownInv(s: State, p: Path, right: bool, r: Ref)
    requires Inv(s, r) && r != NULL && p in s.at && s.at[p] in s.mem && Down(p, right) !in s.at && Depth(p) < 32
    ensures Inv(Grown(s, p, right, r), NULL) 
  {
    GrownTree(s, p, right, r);
    GrownFree(s, p, right, r);
  }

  lemma GrownTree(s: State, p: Path, right: bool, r: Ref)
    requires TreeInv(s) && r != NULL && r !in s.path && p in s.at && s.at[p] in s.mem && Down(p, right) !in s.at &&
      Depth(p) < 32
    ensures TreeInv(Grown(s, p, right, r))
  {
    var t := Grown(s, p, right, r);
    assert NodeAt(s, p);
    forall q | q in s.at ensures NodeAt(t, q) { GrownNode(s, p, right, r, q); }
    GrownLeaf(s, p, right, r);
    GrownPaths(s, p, right, r);
  }

  lemma GrownPaths(s: State, p: Path, right: bool, r: Ref)
    requires TreeInv(s) && r !in s.path && p in s.at && s.at[p] in s.mem && Down(p, right) !in s.at
    ensures var t := Grown(s, p, right, r);
      t.at.Keys == s.at.Keys + {Down(p, right)} && forall q :: q in t.path ==> t.path[q] in t.at && t.at[t.path[q]] == q
  {}

  lemma GrownLeaf(s: State, p: Path, right: bool, r: Ref)
    requires TreeInv(s) && r != NULL && r !in s.path && NodeAt(s, p) && Down(p, right) !in s.at && Depth(p) < 32
    ensures NodeAt(Grown(s, p, right, r), Down(p, right))
  {
    forall b ensures Down(Down(p, right), b) !in s.at {
      assert Down(Down(p, right), b) in s.at ==> NodeAt(s, Down(Down(p, right), b));
    }
  }

  lemma GrownNode(s: State, p: Path, right: bool, r: Ref, q: Path)
    requires r != NULL && r !in s.path && NodeAt(s, p) && NodeAt(s, q) && Down(p, right) !in s.at
    ensures NodeAt(Grown(s, p, right, r), q)
  {
    var t := Grown(s, p, right, r);
    assert forall b :: Child(t, q, b) == if q == p && b == right then r else Child(s, q, b);
  }

  lemma GrownFree(s: State, p: Path, right: bool, r: Ref)
    requires FreeInv(s, r) && r != NULL && NULL !in s.path && NodeAt(s, p)
    ensures FreeInv(Grown(s, p, right, r), NULL)
  {
    var t := Grown(s, p, right, r);
    forall k ensures FreeAt(t, k) { assert FreeAt(s, k); }
  }

  ghost function Assigned(s: State, p: Path, value: int): State
    requires p in s.at && s.at[p] in s.mem
  {
    s.(mem := s.mem[s.at[p] := s.mem[s.at[p]].(value := value)],
       values := if value == NO_VALUE then s.values - {p} else s.values[p := value])
  }

  lemma AssignedInv(s: State, p: Path, value: int)
    requires Inv(s, NULL) && p in s.at && s.at[p] in s.mem
    ensures Inv(Assigned(s, p, value), NULL)
  {
    var t := Assigned(s, p, value);
    assert NodeAt(s, p);
    forall q | q in t.at ensures NodeAt(t, q) { assert NodeAt(s, q); }
    forall k ensures FreeAt(t, k) { assert FreeAt(s, k); }
  }

  // A leaf is unlinked and put at the head of the free list.
  ghost function Pruned(s: State, p: Path): State
    requires p in s.at && s.at[p] in s.mem && p.Down? && p.up in s.at && s.at[p.up] in s.mem
  {
    var r := s.at[p];
    var n := s.at[p.up];
    var m := s.mem[n := if p.right then s.mem[n].(right := NULL) else s.mem[n].(left := NULL)];
    s.(at := s.at - {p}, path := s.path - {r}, free := [r] + s.free, values := s.values - {p},
       mem := m[r := s.mem[r].(right := if s.free == [] then NULL else s.free[0])])
  }

  lemma PrunedInv(s: State, p: Path)
    requires Inv(s, NULL) && p in s.at && p.Down? && Leaf(s, p)
    ensures NodeAt(s, p) && NodeAt(s, p.up) && Inv(Pruned(s, p), NULL)
  {
    assert NodeAt(s, p) && NodeAt(s, p.up);
    PrunedTree(s, p);
    PrunedFree(s, p);
  }

  lemma PrunedTree(s: State, p: Path)
    requires TreeInv(s) && p.Down? && Leaf(s, p) && NodeAt(s, p) && NodeAt(s, p.up)
    ensures TreeInv(Pruned(s, p))
  {
    var t := Pruned(s, p);
    forall q | q in t.at ensures NodeAt(t, q) { assert NodeAt(s, q); }
  }

  lemma PrunedFree(s: State, p: Path)
    requires FreeInv(s, NULL) && p.Down? && NodeAt(s, p) && NodeAt(s, p.up)
    ensures FreeInv(Pruned(s, p), NULL)
  {
    var t := Pruned(s, p);
    forall k ensures FreeAt(t, k) { assert FreeAt(s, k - 1); }
    assert s.at[p] !in s.free by { forall k | 0 <= k < |s.free| ensures s.free[k] != s.at[p] { assert FreeAt(s, k); } }
    assert forall i :: 0 < i < |t.free| ==> t.free[i] == s.free[i - 1];
  }

  ghost predicate Disjoint(r: Ref, n: nat, q: Ref, m: nat) {
    r + n <= q || q + m <= r
  }

  // The memory from `start` on does not overlap the nodes there are.
  ghost predicate Clear(nodes: set<Ref>, start: Ref, size: nat) {
    forall r {:trigger Disjoint(r, NODE, start, size)} :: r in nodes ==> Disjoint(r, NODE, start, size)
  }

  // The nodes do not overlap each other, nor the memory the next ones come from, nor the pages that ngx_pmemalign
  // will answer with; an answer NULL is a failure.
  ghost predicate Space(nodes: set<Ref>, start: Ref, size: nat, pages: seq<Ref>) {
    && (forall q {:trigger Clear(nodes - {q}, q, NODE)} :: q in nodes ==> Clear(nodes - {q}, q, NODE))
    && Clear(nodes, start, size) && (size > 0 ==> start > 0)
    && (forall i {:trigger PageAt(nodes, start, size, pages, i)} :: PageAt(nodes, start, size, pages, i))
  }

  ghost predicate PageAt(nodes: set<Ref>, start: Ref, size: nat, pages: seq<Ref>, i: int) {
    0 <= i < |pages| && pages[i] != NULL ==>
      && pages[i] > 0 && Clear(nodes, pages[i], PAGE) && Disjoint(start, size, pages[i], PAGE)
      && forall j {:trigger Disjoint(pages[i], PAGE, pages[j], PAGE)} :: i < j < |pages| && pages[j] != NULL ==>
         Disjoint(pages[i], PAGE, pages[j], PAGE)
  }

  lemma PageSpace(nodes: set<Ref>, start: Ref, size: nat, pages: seq<Ref>)
    requires Space(nodes, start, size, pages) && pages != [] && pages[0] != NULL
    ensures Space(nodes, pages[0], PAGE, pages[1..])
  {
    var rest := pages[1..];
    assert PageAt(nodes, start, size, pages, 0);
    forall i ensures PageAt(nodes, pages[0], PAGE, rest, i) {
      if 0 <= i < |rest| && rest[i] != NULL {
        assert PageAt(nodes, start, size, pages, i + 1);
        assert Disjoint(pages[0], PAGE, pages[i + 1], PAGE);
        forall j | i < j < |rest| && rest[j] != NULL ensures Disjoint(rest[i], PAGE, rest[j], PAGE) {
          assert Disjoint(pages[i + 1], PAGE, pages[j + 1], PAGE);
        }
      }
    }
  }

  lemma SpaceRest(nodes: set<Ref>, start: Ref, size: nat, pages: seq<Ref>)
    requires Space(nodes, start, size, pages) && pages != []
    ensures Space(nodes, start, size, pages[1..])
  {
    var rest := pages[1..];
    forall i ensures PageAt(nodes, start, size, rest, i) {
      if 0 <= i < |rest| && rest[i] != NULL {
        assert PageAt(nodes, start, size, pages, i + 1);
        forall j | i < j < |rest| && rest[j] != NULL ensures Disjoint(rest[i], PAGE, rest[j], PAGE) {
          assert Disjoint(pages[i + 1], PAGE, pages[j + 1], PAGE);
        }
      }
    }
  }

  function Rest(pages: seq<Ref>, took: bool): seq<Ref> {
    if took && pages != [] then pages[1..] else pages
  }

  lemma CarvedSpace(nodes: set<Ref>, start: Ref, size: nat, pages: seq<Ref>)
    requires Space(nodes, start, size, pages) && size >= NODE
    ensures Space(nodes + {start}, start + NODE, size - NODE, pages) && start !in nodes
  {
    var m := nodes + {start};
    assert start !in nodes by { assert Disjoint(start, NODE, start, size) || start !in nodes; }
    forall q | q in m ensures Clear(m - {q}, q, NODE) { CarvedClear(nodes, start, size, q); }
    forall r | r in m ensures Disjoint(r, NODE, start + NODE, size - NODE) { assert r == start ||
      Disjoint(r, NODE, start, size); }
    var first, left := start + NODE, size - NODE;
    forall i ensures PageAt(m, first, left, pages, i) {
      assert PageAt(nodes, start, size, pages, i);
      if 0 <= i < |pages| && pages[i] != NULL {
        forall r | r in m ensures Disjoint(r, NODE, pages[i], PAGE) { assert r == start ||
          Disjoint(r, NODE, pages[i], PAGE); }
      }
    }
  }

  lemma CarvedClear(nodes: set<Ref>, start: Ref, size: nat, q: Ref)
    requires Clear(nodes, start, size) && size >= NODE && start !in nodes
    requires q == start || (q in nodes && Clear(nodes - {q}, q, NODE))
    ensures Clear(nodes + {start} - {q}, q, NODE)
  {
    forall r | r in nodes + {start} - {q} ensures Disjoint(r, NODE, q, NODE) {
      if r == start {
        assert Disjoint(q, NODE, start, size);
      } else if q == start {
        assert Disjoint(r, NODE, start, size);
      } else {
        assert r in nodes - {q} && Disjoint(r, NODE, q, NODE);
      }
    }
  }

  // Longest-prefix match among the prefixes of fewer than n bits: `value` is that of the longest one that has a value.
  ghost predicate Match(values: map<Path, int>, key: Word, n: nat, value: int) {
    || (value == NO_VALUE && forall j :: 0 <= j < n ==> Prefix(key, j) !in values)
    || exists k ::
      0 <= k < n && Prefix(key, k) in values && value == values[Prefix(key, k)] &&
      forall j :: k < j < n ==> Prefix(key, j) !in values
  }

  // Below a missing node there is nothing.
  lemma {:induction false} NothingBelow(s: State, key: Word, d: nat, n: nat)
    requires TreeInv(s) && d <= n && Prefix(key, d) !in s.at
    ensures Prefix(key, n) !in s.at
  {
    if d < n {
      NothingBelow(s, key, d, n - 1);
      assert Prefix(key, n) in s.at ==> NodeAt(s, Prefix(key, n));
    }
  }

  lemma MatchBelow(s: State, key: Word, d: nat, n: nat, value: int)
    requires TreeInv(s) && d <= n && Prefix(key, d) !in s.at && Match(s.values, key, d, value)
    ensures Match(s.values, key, n, value)
  {
    forall j | d <= j ensures Prefix(key, j) !in s.values { NothingBelow(s, key, d, j); }
  }

  lemma StepDown(s: State, key: Word, d: nat)
    requires TreeInv(s) && Prefix(key, d) in s.at
    ensures d <= 32 && s.at[Prefix(key, d)] in s.mem
    ensures var n := s.mem[s.at[Prefix(key, d)]]; var next := if Test(key, d) then n.right else n.left;
            if next == NULL then Prefix(key, d + 1) !in s.at
              else Prefix(key, d + 1) in s.at && next == s.at[Prefix(key, d + 1)]
  {
    PrefixDepth(key, d);
    assert NodeAt(s, Prefix(key, d));
    assert Prefix(key, d + 1) in s.at ==> NodeAt(s, Prefix(key, d + 1));
  }

  lemma FindStep(s: State, key: Word, d: nat, value: int)
    requires TreeInv(s) && Prefix(key, d) in s.at && Match(s.values, key, d, value)
    ensures d <= 32 && s.at[Prefix(key, d)] in s.mem
    ensures var n := s.mem[s.at[Prefix(key, d)]]; var next := if Test(key, d) then n.right else n.left;
            && (if next == NULL then Prefix(key, d + 1) !in s.at
               else Prefix(key, d + 1) in s.at && next == s.at[Prefix(key, d + 1)])
            && Match(s.values, key, d + 1, if n.value != NO_VALUE then n.value else value)
  {
    PrefixDepth(key, d);
    assert NodeAt(s, Prefix(key, d));
    assert Prefix(key, d + 1) in s.at ==> NodeAt(s, Prefix(key, d + 1));
  }

  // Taking a node off the free list, or from fresh memory
  lemma PoppedInv(s: State)
    requires Inv(s, NULL) && s.free != []
    ensures Inv(s.(free := s.free[1..]), s.free[0]) && s.free[0] != NULL && s.free[0] in s.mem
    ensures s.mem[s.free[0]].right == if |s.free| == 1 then NULL else s.free[1]
  {
    var t := s.(free := s.free[1..]);
    assert FreeAt(s, 0);
    assert TreeInv(t) by { forall p | p in t.at ensures NodeAt(t, p) { assert NodeAt(s, p); } }
    PoppedFree(s);
  }

  lemma PoppedFree(s: State)
    requires FreeInv(s, NULL) && s.free != []
    ensures FreeInv(s.(free := s.free[1..]), s.free[0])
  {
    var t := s.(free := s.free[1..]);
    forall r | r in s.free ensures r == s.free[0] || r in t.free { assert s.free == [s.free[0]] + t.free; }
    forall k ensures FreeAt(t, k) { assert FreeAt(s, k + 1); }
    assert FreeAt(s, 0);
  }

  lemma CarvedInv(s: State, r: Ref, n: Node)
    requires Inv(s, NULL) && r !in s.mem && r != NULL
    ensures Inv(s.(mem := s.mem[r := n]), r)
  {
    var t := s.(mem := s.mem[r := n]);
    assert TreeInv(t) by { forall p | p in t.at ensures NodeAt(t, p) { assert NodeAt(s, p); } }
    forall p | p in s.at ensures s.at[p] in s.mem && s.at[p] != r { assert NodeAt(s, p); }
    CarvedFree(s, r, n);
  }

  lemma CarvedFree(s: State, r: Ref, n: Node)
    requires FreeInv(s, NULL) && r !in s.mem && r != NULL && r !in s.path
    ensures FreeInv(s.(mem := s.mem[r := n]), r)
  {
    var t := s.(mem := s.mem[r := n]);
    forall k ensures FreeAt(t, k) { assert FreeAt(s, k); }
    assert r !in s.free by { forall k | 0 <= k < |s.free| ensures s.free[k] != r { assert FreeAt(s, k); } }
  }

  // No leaf but the root, and the one at p, is without a value.
  ghost predicate TidyBut(s: State, p: Path) {
    forall q {:trigger Leaf(s, q)} :: q in s.at && q != Top && q != p && Leaf(s, q) ==> q in s.values
  }

  ghost predicate Tidy(s: State) {
    TidyBut(s, Top)
  }

  lemma NoNullChild(s: State, p: Path)
    requires TreeInv(s) && p in s.at
    ensures NodeAt(s, p) && (Leaf(s, p) <==> s.mem[s.at[p]].right == NULL && s.mem[s.at[p]].left == NULL)
    ensures (s.mem[s.at[p]].parent == NULL <==> p == Top) && (s.mem[s.at[p]].value != NO_VALUE <==> p in s.values)
  {
    assert NodeAt(s, p) && (p.Down? ==> NodeAt(s, p.up));
    assert Down(p, true) in s.at ==> NodeAt(s, Down(p, true));
    assert Down(p, false) in s.at ==> NodeAt(s, Down(p, false));
  }

  lemma WhichChild(s: State, p: Path)
    requires TreeInv(s) && p in s.at && p.Down?
    ensures NodeAt(s, p) && NodeAt(s, p.up) && (s.mem[s.at[p.up]].right == s.at[p] <==> p.right)
  {
    assert NodeAt(s, p) && NodeAt(s, p.up);
    assert Down(p.up, true) in s.at ==> NodeAt(s, Down(p.up, true));
  }

  lemma TidyPruned(s: State, p: Path)
    requires Inv(s, NULL) && p in s.at && p.Down? && Leaf(s, p)
    ensures NodeAt(s, p) && NodeAt(s, p.up) && (TidyBut(s, p) ==> TidyBut(Pruned(s, p), p.up))
  {
    PrunedInv(s, p);
    var t := Pruned(s, p);
    forall q | q in t.at && q != p.up && Leaf(t, q) ensures Leaf(s, q) {}
  }

  // The two writes that unlink a leaf, and all they keep
  lemma PruneStep(s: State, p: Path)
    requires Inv(s, NULL) && p in s.at && p.Down? && Leaf(s, p)
    ensures p.up in s.at && s.at[p] in s.mem && s.at[p.up] in s.mem && s.mem[s.at[p]].parent == s.at[p.up]
    ensures var r, n, t := s.at[p], s.at[p.up], Pruned(s, p);
            var m := s.mem[n := if s.mem[n].right == r then s.mem[n].(right := NULL) else s.mem[n].(left := NULL)];
            m[r := m[r].(right := if s.free == [] then NULL else s.free[0])] == t.mem && t.mem.Keys == s.mem.Keys
    ensures var t := Pruned(s, p); Inv(t, NULL) && t.at[Top] == s.at[Top] && (TidyBut(s, p) ==> TidyBut(t, p.up))
  {
    WhichChild(s, p);
    PrunedInv(s, p);
    TidyPruned(s, p);
    assert s.at[p] != s.at[p.up];
  }

  lemma GrownTidy(s: State, p: Path, right: bool, r: Ref)
    requires Inv(s, r) && r != NULL && p in s.at && s.at[p] in s.mem && Down(p, right) !in s.at && Depth(p) < 32
    ensures TidyBut(s, p) ==> TidyBut(Grown(s, p, right, r), Down(p, right))
  {
    GrownInv(s, p, right, r);
    var t := Grown(s, p, right, r);
    forall q | q in t.at && Leaf(t, q) && q != Down(p, right) ensures Leaf(s, q) && q != p {}
  }

  lemma AssignedTidy(s: State, p: Path, value: int)
    requires Inv(s, NULL) && p in s.at && s.at[p] in s.mem && value != NO_VALUE
    ensures TidyBut(s, p) ==> Tidy(Assigned(s, p, value))
  {
    AssignedInv(s, p, value);
    forall q | q in s.at && Leaf(Assigned(s, p, value), q) ensures Leaf(s, q) {}
  }

  lemma TidySame(s: State, t: State, p: Path)
    requires t.at == s.at && t.values == s.values
    ensures TidyBut(s, p) ==> TidyBut(t, p)
  {
    forall q | Leaf(t, q) ensures Leaf(s, q) {}
  }

  lemma TidyAgain(s: State, p: Path)
    requires Inv(s, NULL) && p in s.at && (p == Top || !Leaf(s, p) || p in s.values)
    ensures TidyBut(s, p) ==> Tidy(s)
  {}

  lemma TidyWithout(s: State, p: Path)
    requires Inv(s, NULL) && p in s.at && s.at[p] in s.mem && !Leaf(s, p)
    ensures Tidy(s) ==> Tidy(Assigned(s, p, NO_VALUE))
  {
    AssignedInv(s, p, NO_VALUE);
    forall q | q in s.at && Leaf(Assigned(s, p, NO_VALUE), q) ensures Leaf(s, q) {}
  }

  datatype Rc = OK | BUSY | ERROR

  datatype Op = Put(key: Word, mask: Word, value: int) | Drop(key: Word, mask: Word)

  ghost function Of(op: Op): Path {
    Prefix(op.key, Length(op.mask))
  }

  // What an operation does to the map of prefixes: a value is stored if the insert says so, and a prefix is dropped.
  ghost function After(values: map<Path, int>, op: Op, rc: Rc): map<Path, int> {
    if op.Drop? then values - {Of(op)} else if rc == OK then values[Of(op) := op.value] else values
  }

  // A delete of the empty prefix when no other one is stored
  ghost predicate Stuck(values: map<Path, int>, op: Op) {
    op.Drop? && Length(op.mask) == 0 && forall p :: p in values ==> p == Top
  }

  ghost function Replay(values: map<Path, int>, ops: seq<Op>, rcs: seq<Rc>): map<Path, int>
    requires |rcs| <= |ops|
    decreases ops
  {
    if rcs == [] then values else Replay(After(values, ops[0], rcs[0]), ops[1..], rcs[1..])
  }

  // The codes: an insert is refused exactly for a stored prefix; as long as no insert has failed a delete succeeds
  // exactly for one.
  ghost predicate Code(values: map<Path, int>, op: Op, rc: Rc, tidy: bool) {
    if op.Put? then rc == BUSY <==> Of(op) in values else rc != BUSY && (tidy ==> (rc == OK <==> Of(op) in values))
  }

  ghost predicate Starved(op: Op, rc: Rc) {
    op.Put? && rc == ERROR
  }

  // The answers to a run, which ends early (`lost`) at a delete that finds no parent of the root.  In a tree without
  // empty leaves that is one that is stuck.
  ghost predicate Answers(values: map<Path, int>, ops: seq<Op>, rcs: seq<Rc>, lost: bool, tidy: bool)
    requires |rcs| <= |ops|
    decreases ops
  {
    if ops == [] then !lost
    else if rcs == [] then lost && Stuck(values, ops[0])
    else
      && Code(values, ops[0], rcs[0], tidy) && (tidy ==> !Stuck(values, ops[0]))
      && Answers(After(values, ops[0], rcs[0]), ops[1..], rcs[1..], lost, tidy && !Starved(ops[0], rcs[0]))
  }

  lemma {:induction false} AnswersLess(values: map<Path, int>, ops: seq<Op>, rcs: seq<Rc>, lost: bool, tidy: bool,
      less: bool)
    requires |rcs| <= |ops| && Answers(values, ops, rcs, lost, tidy) && (less ==> tidy)
    ensures Answers(values, ops, rcs, lost, less)
    decreases ops
  {
    if ops != [] && rcs != [] {
      var l := Starved(ops[0], rcs[0]);
      AnswersLess(After(values, ops[0], rcs[0]), ops[1..], rcs[1..], lost, tidy && !l, less && !l);
    }
  }

  lemma NotAlone(s: State)
    requires TreeInv(s) && exists p :: p in s.values && p != Top
    ensures !Leaf(s, Top)
  {
    var p :| p in s.values && p != Top;
    BelowTop(s, p);
  }

  lemma {:induction false} LeafBelow(s: State, p: Path) returns (q: Path)
    requires TreeInv(s) && p in s.at
    ensures q in s.at && Leaf(s, q) && Depth(q) >= Depth(p)
    decreases 32 - Depth(p)
  {
    assert NodeAt(s, p);
    q := p;
    if !Leaf(s, p) {
      var c := Down(p, Down(p, true) in s.at);
      assert NodeAt(s, c);
      q := LeafBelow(s, c);
    }
  }

  // In a tree without empty leaves the root has children if and only if a prefix that is not the empty one is stored.
  lemma AloneIff(s: State)
    requires TreeInv(s) && Tidy(s)
    ensures Leaf(s, Top) <==> forall p :: p in s.values ==> p == Top
  {
    if !Leaf(s, Top) {
      var c := Down(Top, Down(Top, true) in s.at);
      var q := LeafBelow(s, c);
      assert q in s.values;
    } else if p :| p in s.values && p != Top {
      NotAlone(s);
    }
  }

  lemma {:induction false} BelowTop(s: State, p: Path)
    requires TreeInv(s) && p in s.at && p != Top
    ensures !Leaf(s, Top)
  {
    assert NodeAt(s, p);
    if p.up != Top {
      BelowTop(s, p.up);
    }
  }

  class Tree {
    var mem: map<Ref, Node>
    const root: Ref
    var free: Ref
    var start: Ref
    var size: nat
    ghost var at: map<Path, Ref>
    ghost var path: map<Ref, Path>
    ghost var freed: seq<Ref>
    ghost var values: map<Path, int>   // the prefixes with a value

    ghost function View(): State
      reads this
    {
      State(mem, at, path, freed, values)
    }

    ghost predicate Held(spare: Ref)
      reads this
    {
      Inv(View(), spare) && at[Top] == root && free == if freed == [] then NULL else freed[0]
    }

    ghost predicate Valid()
      reads this
    {
      Held(NULL) && Space(mem.Keys, start, size, [])
    }

    // ngx_radix_tree_create without preallocation; it fails when there is no page
    constructor (page: Ref)
      requires page > 0
      ensures Valid() && values == map[] && Tidy(View()) && mem.Keys == {page} && start == page + NODE &&
        size == PAGE - NODE
    {
      mem, root, free := map[page := Node(NULL, NULL, NULL, NO_VALUE)], page, NULL;
      start, size := page + NODE, PAGE - NODE;
      at, path, freed, values := map[Top := page], map[page := Top], [], map[];
      new;
      assert NodeAt(View(), Top);
      forall q | q in mem.Keys ensures Clear(mem.Keys - {q}, q, NODE) {}
      forall r | r in mem.Keys ensures Disjoint(r, NODE, start, size) {}
    }

    // ngx_radix32tree_find
    method Find(key: Word) returns (value: int)
      requires Valid()
      ensures Match(values, key, 33, value)
    {
      var bit := 0;
      value := NO_VALUE;
      var node := root;
      assert NodeAt(View(), Top);
      while node != NULL
        invariant bit <= 33 && Match(values, key, bit, value)
        invariant if node == NULL then Prefix(key, bit) !in at
          else Prefix(key, bit) in at && node == at[Prefix(key, bit)]
        decreases 33 - bit
      {
        FindStep(View(), key, bit, value);
        if mem[node].value != NO_VALUE {
          value := mem[node].value;
        }
        node := if Test(key, bit) then mem[node].right else mem[node].left;
        bit := bit + 1;
      }
      MatchBelow(View(), key, bit, 33, value);
    }

    // ngx_radix_alloc; `took` says whether the first of the pages has been used
    method Alloc(pages: seq<Ref>, took0: bool) returns (r: Ref, took: bool)
      requires Held(NULL) && Space(mem.Keys, start, size, Rest(pages, took0)) && (took0 ==> size >= NODE)
      modifies `mem, `free, `freed, `start, `size
      ensures Held(r) && values == old(values) && Space(mem.Keys, start, size, Rest(pages, took))
      ensures r == NULL ==> !took && (pages == [] || pages[0] == NULL)
      ensures took0 ==> took && r != NULL && size >= old(size) - NODE
      ensures took && !took0 ==> pages != [] && size == PAGE - NODE
    {
      took := took0;
      if free != NULL {
        PoppedInv(View());
        r := free;
        free := mem[free].right;
        freed := freed[1..];
      } else if size < NODE && (pages == [] || pages[0] == NULL) {
        r := NULL;
      } else {
        r, took := Carve(pages, took);
      }
    }

    method Carve(pages: seq<Ref>, took0: bool) returns (r: Ref, took: bool)
      requires Held(NULL) && Space(mem.Keys, start, size, Rest(pages, took0))
      requires if size < NODE then pages != [] && pages[0] != NULL && !took0 else true
      modifies `mem, `start, `size
      ensures Held(r) && values == old(values) && Space(mem.Keys, start, size, Rest(pages, took))
      ensures r != NULL && took == (took0 || old(size) < NODE) &&
        size == (if old(size) < NODE then PAGE else old(size)) - NODE
    {
      took := took0;
      if size < NODE {
        PageSpace(mem.Keys, start, size, pages);
        start, size, took := pages[0], PAGE, true;
      }
      r := start;
      CarvedSpace(mem.Keys, start, size, Rest(pages, took));
      NewNode(r);
      start, size := start + NODE, size - NODE;
    }

    method NewNode(r: Ref)
      requires Held(NULL) && r !in mem && r != NULL
      modifies `mem
      ensures Held(r) && values == old(values) && mem.Keys == old(mem.Keys) + {r}
    {
      CarvedInv(View(), r, Node(NULL, NULL, NULL, 0));
      mem := mem[r := Node(NULL, NULL, NULL, 0)];
      assert mem.Keys == old(mem.Keys) + {r};
    }

    // ngx_radix32tree_insert
    method Insert(key: Word, mask: Word, value: int, pages: seq<Ref>, ghost n: nat) returns (rc: Rc, took: bool)
      requires Valid() && Space(mem.Keys, start, size, pages) && Ones(mask, n)
      modifies this
      ensures Valid() && Space(mem.Keys, start, size, Rest(pages, took))
      ensures rc == BUSY <==> Prefix(key, n) in old(values)
      ensures rc != OK || value == NO_VALUE ==> values == old(values)
      ensures rc == OK && value != NO_VALUE ==> values == old(values)[Prefix(key, n) := value]
      ensures pages != [] && pages[0] != NULL ==> rc != ERROR
      ensures old(Tidy(View())) && rc != ERROR && value != NO_VALUE ==> Tidy(View())
    {
      took := false;
      var bit := 0;
      var node, next := root, root;
      assert NodeAt(View(), Top);
      while Test(mask, bit)
        invariant bit <= 32 && bit <= n
        invariant Prefix(key, bit) in at && node == at[Prefix(key, bit)] && next == node && node != NULL
        decreases 32 - bit
        modifies {}
      {
        StepDown(View(), key, bit);
        next := if Test(key, bit) then mem[node].right else mem[node].left;
        if next == NULL {
          break;
        }
        bit := bit + 1;
        node := next;
      }
      assert NodeAt(View(), Prefix(key, bit));
      if next != NULL {
        if mem[node].value != NO_VALUE {
          return BUSY, false;
        }
        SetValue(node, Prefix(key, bit), value);
        return OK, false;
      }
      rc, took := Extend(key, mask, value, pages, node, bit, n);
    }

    // Its second part: the missing nodes are added below `node`.
    method Extend(key: Word, mask: Word, value: int, pages: seq<Ref>, node0: Ref, bit0: nat, ghost n: nat)
        returns (rc: Rc, took: bool)
      requires Held(NULL) && Space(mem.Keys, start, size, pages)
      requires Ones(mask, n) && bit0 < n
      requires Prefix(key, bit0) in at && node0 == at[Prefix(key, bit0)] && Prefix(key, bit0 + 1) !in at
      modifies this
      ensures Held(NULL) && Space(mem.Keys, start, size, Rest(pages, took))
      ensures rc != BUSY && Prefix(key, n) !in old(values)
      ensures rc != OK || value == NO_VALUE ==> values == old(values)
      ensures rc == OK && value != NO_VALUE ==> values == old(values)[Prefix(key, n) := value]
      ensures pages != [] && pages[0] != NULL ==> rc != ERROR
      ensures old(Tidy(View())) && rc == OK && value != NO_VALUE ==> Tidy(View())
    {
      NothingBelow(View(), key, bit0 + 1, n);
      var node;
      node, took := AddNodes(key, mask, pages, node0, bit0, n);
      if node == NULL {
        return ERROR, took;
      }
      SetValue(node, Prefix(key, n), value);
      rc := OK;
    }

    method AddNodes(key: Word, mask: Word, pages: seq<Ref>, node0: Ref, bit0: nat, ghost n: nat)
        returns (node: Ref, took: bool)
      requires Held(NULL) && Space(mem.Keys, start, size, pages)
      requires Ones(mask, n) && bit0 < n
      requires Prefix(key, bit0) in at && node0 == at[Prefix(key, bit0)] && Prefix(key, bit0 + 1) !in at
      modifies this
      ensures Held(NULL) && Space(mem.Keys, start, size, Rest(pages, took)) && values == old(values)
      ensures node != NULL && old(Tidy(View())) ==> TidyBut(View(), Prefix(key, n))
      ensures node != NULL ==> Prefix(key, n) in at && node == at[Prefix(key, n)]
      ensures pages != [] && pages[0] != NULL ==> node != NULL
    {
      assert NodeAt(View(), Prefix(key, bit0));
      node, took := node0, false;
      var bit := bit0;
      while Test(mask, bit)
        invariant Held(NULL) && Space(mem.Keys, start, size, Rest(pages, took)) && values == old(values)
        invariant bit <= 32 && bit <= n && node != NULL
        invariant Prefix(key, bit) in at && node == at[Prefix(key, bit)] && Prefix(key, bit + 1) !in at
        invariant took ==> size >= 1024 - 32 * bit
        invariant old(Tidy(View())) ==> TidyBut(View(), Prefix(key, bit))
        decreases 32 - bit
      {
        node, took := AddNode(key, bit, node, pages, took);
        if node == NULL {
          return;
        }
        bit := bit + 1;
      }
    }

    // node->value = value
    method SetValue(node: Ref, ghost p: Path, value: int)
      requires Held(NULL) && p in at && node == at[p]
      modifies `mem, `values
      ensures Held(NULL) && mem.Keys == old(mem.Keys) && p in old(at) && old(at[p]) in old(mem) &&
        View() == Assigned(old(View()), p, value)
      ensures values == if value == NO_VALUE then old(values) - {p} else old(values)[p := value]
      ensures value != NO_VALUE && old(TidyBut(View(), p)) ==> Tidy(View())
    {
      assert NodeAt(View(), p);
      AssignedInv(View(), p, value);
      if value != NO_VALUE {
        AssignedTidy(View(), p, value);
      }
      mem := mem[node := mem[node].(value := value)];
      values := if value == NO_VALUE then values - {p} else values[p := value];
      assert mem.Keys == old(mem.Keys);
    }

    method AddNode(key: Word, bit: nat, node: Ref, pages: seq<Ref>, took0: bool) returns (next: Ref, took: bool)
      requires Held(NULL) && Space(mem.Keys, start, size, Rest(pages, took0)) && bit < 32 && (took0 ==> size >= NODE)
      requires Prefix(key, bit) in at && node == at[Prefix(key, bit)] && Prefix(key, bit + 1) !in at
      modifies this
      ensures Held(NULL) && Space(mem.Keys, start, size, Rest(pages, took)) && values == old(values)
      ensures next == NULL ==> !took && (pages == [] || pages[0] == NULL)
      ensures next != NULL ==>
        Prefix(key, bit + 1) in at && next == at[Prefix(key, bit + 1)] && Prefix(key, bit + 2) !in at
      ensures took0 ==> took && next != NULL && size >= old(size) - NODE
      ensures took && !took0 ==> size == PAGE - NODE
      ensures next != NULL && old(TidyBut(View(), Prefix(key, bit))) ==> TidyBut(View(), Prefix(key, bit + 1))
    {
      ghost var s := View();
      next, took := Alloc(pages, took0);
      TidySame(s, View(), Prefix(key, bit));
      if next != NULL {
        PrefixDepth(key, bit);
        NothingBelow(View(), key, bit + 1, bit + 2);
        Link(next, node, Prefix(key, bit), Test(key, bit));
      }
    }

    method Link(next: Ref, node: Ref, ghost p: Path, right: bool)
      requires Held(next) && next != NULL && p in at && node == at[p] && Down(p, right) !in at && Depth(p) < 32
      modifies `mem, `at, `path
      ensures Held(NULL) && values == old(values) && at == old(at)[Down(p, right) := next] && mem.Keys == old(mem.Keys)
      ensures old(TidyBut(View(), p)) ==> TidyBut(View(), Down(p, right))
    {
      ghost var s := View();
      assert NodeAt(s, p);
      GrownInv(s, p, right, next);
      GrownTidy(s, p, right, next);
      mem := mem[next := Node(NULL, NULL, node, NO_VALUE)];
      mem := mem[node := if right then mem[node].(right := next) else mem[node].(left := next)];
      at, path := at[Down(p, right) := next], path[next := Down(p, right)];
      assert next != node && mem.Keys == old(mem.Keys);
    }

    // ngx_radix32tree_delete.  The root has no parent to be unlinked from: when it is a leaf its parent is read through
    // a null pointer, which `lost` says.
    method Delete(key: Word, mask: Word, ghost n: nat) returns (rc: Rc, lost: bool)
      requires Valid() && Ones(mask, n)
      modifies `mem, `free, `at, `path, `freed, `values
      ensures Valid() && rc != BUSY && mem.Keys == old(mem.Keys)
      ensures lost <==> n == 0 && Leaf(old(View()), Top)
      ensures lost ==> View() == old(View())
      ensures !lost ==> var p := Prefix(key, n); var s := old(View());
              rc == ERROR <==> p !in s.at || (!Leaf(s, p) && p !in s.values)
      ensures !lost ==> values == if rc == OK then old(values) - {Prefix(key, n)} else old(values)
      ensures old(Tidy(View())) ==> Tidy(View()) && (!lost ==> (rc == OK <==> Prefix(key, n) in old(values)))
      ensures old(Tidy(View())) ==> (lost <==> n == 0 && forall p :: p in old(values) ==> p == Top)
    {
      if Tidy(View()) {
        AloneIff(View());
      }
      lost := false;
      ghost var p := Prefix(key, n);
      var node := Lookup(key, mask, n);
      if node == NULL {
        return ERROR, false;
      }
      assert NodeAt(View(), p);
      assert Leaf(View(), p) <==> mem[node].right == NULL && mem[node].left == NULL by { NoNullChild(View(), p); }
      if mem[node].right != NULL || mem[node].left != NULL {
        if mem[node].value != NO_VALUE {
          TidyWithout(View(), p);
          SetValue(node, p, NO_VALUE);
          return OK, false;
        }
        return ERROR, false;
      }
      assert p.Down? ==> NodeAt(View(), p.up);
      if mem[node].parent == NULL {
        return ERROR, true;
      }
      Prune(node, p);
      rc := OK;
    }

    method Lookup(key: Word, mask: Word, ghost n: nat) returns (node: Ref)
      requires Valid() && Ones(mask, n)
      ensures if Prefix(key, n) in at then node == at[Prefix(key, n)] && node != NULL else node == NULL
    {
      var bit := 0;
      node := root;
      assert NodeAt(View(), Top);
      while node != NULL && Test(mask, bit)
        invariant bit <= 32 && bit <= n
        invariant if node == NULL then Prefix(key, bit) !in at
          else Prefix(key, bit) in at && node == at[Prefix(key, bit)]
        decreases 32 - bit
      {
        StepDown(View(), key, bit);
        node := if Test(key, bit) then mem[node].right else mem[node].left;
        bit := bit + 1;
        assert Prefix(key, bit) in at ==> NodeAt(View(), Prefix(key, bit));
      }
      if node == NULL {
        NothingBelow(View(), key, bit, n);
      }
    }

    // The loop that unlinks a leaf and then its ancestors, as long as they hold nothing
    method Prune(node0: Ref, ghost p0: Path)
      requires Valid() && p0 in at && node0 == at[p0] && p0.Down? && Leaf(View(), p0)
      modifies `mem, `free, `at, `path, `freed, `values
      ensures mem.Keys == old(mem.Keys)
      ensures Valid() && values == old(values) - {p0}
      ensures old(Tidy(View())) ==> Tidy(View())
    {
      var node := node0;
      ghost var p := p0;
      ghost var left := old(values) - {p0};
      while true
        invariant Valid() && p in at && node == at[p] && p.Down? && Leaf(View(), p) && mem.Keys == old(mem.Keys)
        invariant values - {p} == left
        invariant old(Tidy(View())) ==> TidyBut(View(), p)
        decreases Depth(p)
      {
        var done;
        node, done := Turn(node, p);
        p := p.up;
        if done {
          break;
        }
      }
    }

    // One turn of it: whether the parent stays
    method Turn(node: Ref, ghost p: Path) returns (parent: Ref, done: bool)
      requires Valid() && p in at && node == at[p] && p.Down? && Leaf(View(), p)
      modifies `mem, `free, `at, `path, `freed, `values
      ensures mem.Keys == old(mem.Keys)
      ensures Valid() && p.up in at && parent == at[p.up] && values == old(values) - {p}
      ensures !done ==> p.up.Down? && Leaf(View(), p.up) && p.up !in values
      ensures old(TidyBut(View(), p)) ==> if done then Tidy(View()) else TidyBut(View(), p.up)
    {
      parent := Unlink(node, p);
      NoNullChild(View(), p.up);
      done := mem[parent].right != NULL || mem[parent].left != NULL || mem[parent].value != NO_VALUE ||
        mem[parent].parent == NULL;
      if done {
        TidyAgain(View(), p.up);
      }
    }

    method Unlink(node: Ref, ghost p: Path) returns (parent: Ref)
      requires Valid() && p in at && node == at[p] && p.Down? && Leaf(View(), p)
      modifies `mem, `free, `at, `path, `freed, `values
      ensures mem.Keys == old(mem.Keys)
      ensures Valid() && p.up in at && parent == at[p.up] && values == old(values) - {p}
      ensures old(TidyBut(View(), p)) ==> TidyBut(View(), p.up)
    {
      ghost var s := View();
      PruneStep(s, p);
      parent := mem[node].parent;
      var m := mem[parent := if mem[parent].right == node then mem[parent].(right := NULL)
        else mem[parent].(left := NULL)];
      m := m[node := m[node].(right := free)];
      mem, free := m, node;
      at, path, freed, values := at - {p}, path - {node}, [node] + freed, values - {p};
      assert View() == Pruned(s, p);
    }

    // Any sequence of insertions and deletions; `pages` are the answers of the system to requests for memory, NULL or
    // none at all for a failure.  An insert that fails leaves the map as it was, and none fails while there are pages
    // enough.
    method Run(ops: seq<Op>, pages: seq<Ref>) returns (rcs: seq<Rc>, lost: bool)
      requires Valid() && Space(mem.Keys, start, size, pages)
      requires forall op :: op in ops && op.Put? ==> op.value != NO_VALUE
      modifies this
      ensures Valid() && |rcs| <= |ops| && values == Replay(old(values), ops, rcs) && (lost <==> |rcs| < |ops|)
      ensures Answers(old(values), ops, rcs, lost, old(Tidy(View())))
      ensures NULL !in pages && |ops| <= |pages| ==>
        (forall i :: 0 <= i < |rcs| ==> !Starved(ops[i], rcs[i])) && (old(Tidy(View())) ==> Tidy(View()))
    {
      if ops == [] {
        return [], false;
      }
      ghost var was, tidy := values, Tidy(View());
      assert ops[0] in ops;
      var rc, stuck, rest := Apply(ops[0], pages);
      if stuck {
        return [], true;
      }
      ghost var now, still := values, Tidy(View());
      var more;
      more, lost := Run(ops[1..], rest);
      AnswersLess(now, ops[1..], more, lost, still, tidy && !Starved(ops[0], rc));
      rcs := [rc] + more;
      assert rcs[1..] == more;
    }

    method Apply(op: Op, pages: seq<Ref>) returns (rc: Rc, lost: bool, rest: seq<Ref>)
      requires Valid() && (op.Put? ==> op.value != NO_VALUE) && Space(mem.Keys, start, size, pages)
      modifies this
      ensures Valid() && (lost ==> View() == old(View()) && Stuck(old(values), op))
      ensures !lost ==> values == After(old(values), op, rc) && Code(old(values), op, rc, old(Tidy(View())))
      ensures !lost && old(Tidy(View())) ==> !Stuck(old(values), op)
      ensures Space(mem.Keys, start, size, rest) && |rest| >= |pages| - 1 && (NULL !in pages ==> NULL !in rest)
      ensures pages != [] && NULL !in pages ==> !Starved(op, rc)
      ensures old(Tidy(View())) && (lost || !Starved(op, rc)) ==> Tidy(View())
    {
      rest, lost := pages, false;
      match op
      case Put(key, mask, value) =>
        var took;
        rc, took := Insert(key, mask, value, pages, Length(mask));
        rest := Rest(pages, took);
        if rc == ERROR && !took && pages != [] {
          SpaceRest(mem.Keys, start, size, pages);
          rest := pages[1..];
        }
      case Drop(key, mask) =>
        if exists p :: p in values && p != Top {
          NotAlone(View());
        }
        rc, lost := Delete(key, mask, Length(mask));
    }
  }

  // A new tree, in which the root has no child, and the delete of the empty prefix
  method RootLost(page: Ref) returns (lost: bool)
    requires page > 0
    ensures lost
  {
    var tree := new Tree(page);
    var none: Word, rc := seq(32, _ => false), OK;
    rc, lost := tree.Delete(none, none, 0);
  }
}
