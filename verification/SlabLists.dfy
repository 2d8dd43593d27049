/** Circular doubly linked lists through page descriptors, as threaded by
    nginx/src/core/ngx_slab.c: a header and the pages on the list, in order. */
module SlabLists {
  import opened Basics

  // next and prev fields; the two tag bits of prev are kept apart in SlabPool.
  datatype Cell = Cell(next: int, prev: int)

  const NULL: int := -1

  // The k-th node of the list q with header h; the header stands before the first and after the last.
  function Nth(h: int, q: seq<int>, k: int): int {
    if 0 <= k < |q| then q[k] else h
  }

  ghost predicate LinkAt(c: map<int, Cell>, h: int, q: seq<int>, k: int) {
    0 <= k < |q| && q[k] in c && q[k] != h && q[k] != NULL && c[q[k]] == Cell(Nth(h, q, k + 1), Nth(h, q, k - 1))
  }

  // The header's own prev field is never read, so nothing is said of it.
  ghost predicate IsList(c: map<int, Cell>, h: int, q: seq<int>) {
    && h in c && h != NULL && c[h].next == Nth(h, q, 0) && NoDup(q)
    && (forall k {:trigger LinkAt(c, h, q, k)} :: 0 <= k < |q| ==> LinkAt(c, h, q, k))
  }

  // prev->next = page->next; page->next->prev = page->prev
  function Unlink(c: map<int, Cell>, x: int): map<int, Cell>
    requires x in c && c[x].prev in c && c[x].next in c
  {
    var c1 := c[c[x].prev := c[c[x].prev].(next := c[x].next)];
    c1[c[x].next := c1[c[x].next].(prev := c[x].prev)]
  }

  function RemoveAt(q: seq<int>, k: int): seq<int>
    requires 0 <= k < |q|
  {
    q[..k] + q[k + 1..]
  }

  // The neighbours of the k-th node.
  lemma ListEnds(c: map<int, Cell>, h: int, q: seq<int>, k: int)
    requires IsList(c, h, q) && 0 <= k < |q|
    ensures LinkAt(c, h, q, k) && c[q[k]].prev in c && c[q[k]].next in c
    ensures k > 0 ==> LinkAt(c, h, q, k - 1)
    ensures k + 1 < |q| ==> LinkAt(c, h, q, k + 1)
  {
    assert LinkAt(c, h, q, k);
    assert k > 0 ==> LinkAt(c, h, q, k - 1);
    assert k + 1 < |q| ==> LinkAt(c, h, q, k + 1);
  }

  lemma UnlinkAt(c: map<int, Cell>, h: int, q: seq<int>, k: int, i: int)
    requires IsList(c, h, q) && 0 <= k < |q| && 0 <= i < |q| && i != k
    requires q[k] in c && c[q[k]].prev in c && c[q[k]].next in c
    ensures var c' := Unlink(c, q[k]);
      && q[i] in c' && q[i] != h && q[i] != NULL
      && c'[q[i]].next == (if i + 1 == k then Nth(h, q, k + 1) else Nth(h, q, i + 1))
      && c'[q[i]].prev == (if i == k + 1 then Nth(h, q, k - 1) else Nth(h, q, i - 1))
  {
    ListEnds(c, h, q, k);
    assert LinkAt(c, h, q, i);
  }

  lemma UnlinkIsList(c: map<int, Cell>, h: int, q: seq<int>, k: int)
    requires IsList(c, h, q) && 0 <= k < |q|
    ensures q[k] in c && c[q[k]].prev in c && c[q[k]].next in c && IsList(Unlink(c, q[k]), h, RemoveAt(q, k))
  {
    ListEnds(c, h, q, k);
    var q', c' := RemoveAt(q, k), Unlink(c, q[k]);
    forall j | 0 <= j < |q'| ensures LinkAt(c', h, q', j) {
      UnlinkAt(c, h, q, k, if j < k then j else j + 1);
      RemoveAtNth(h, q, k, j);
      RemoveAtNth(h, q, k, j + 1);
      RemoveAtNth(h, q, k, j - 1);
    }
    RemoveAtNth(h, q, k, 0);
  }

  lemma RemoveAtNth(h: int, q: seq<int>, k: int, j: int)
    requires 0 <= k < |q|
    ensures Nth(h, RemoveAt(q, k), j) == if j < k then Nth(h, q, j) else Nth(h, q, j + 1)
  {
  }

  // x goes to the front: page->next = head.next; page->prev = head; page->next->prev = page; head.next = page
  function PushFront(c: map<int, Cell>, h: int, x: int): map<int, Cell>
    requires x in c && h in c && c[h].next in c && x != h
  {
    var f := c[h].next;
    var c1 := c[x := Cell(f, h)];
    var c2 := c1[f := c1[f].(prev := x)];
    c2[h := c2[h].(next := x)]
  }

  lemma PushFrontIsList(c: map<int, Cell>, h: int, q: seq<int>, x: int)
    requires IsList(c, h, q) && x in c && x != h && x != NULL && x !in q
    ensures c[h].next in c && IsList(PushFront(c, h, x), h, [x] + q)
  {
    assert |q| > 0 ==> LinkAt(c, h, q, 0);
    var q', c' := [x] + q, PushFront(c, h, x);
    forall j | 0 <= j < |q'| ensures LinkAt(c', h, q', j) {
      if j > 0 {
        assert LinkAt(c, h, q, j - 1);
      }
    }
  }

  // y takes the place of x: the remainder of a split run of free pages.
  function Replace(c: map<int, Cell>, x: int, y: int): map<int, Cell>
    requires x in c && y in c && c[x].prev in c && c[x].next in c
  {
    var c1 := c[y := Cell(c[x].next, c[x].prev)];
    var c2 := c1[c[x].prev := c1[c[x].prev].(next := y)];
    c2[c[x].next := c2[c[x].next].(prev := y)]
  }

  lemma ReplaceIsList(c: map<int, Cell>, h: int, q: seq<int>, k: int, y: int)
    requires IsList(c, h, q) && 0 <= k < |q| && y in c && y != h && y != NULL && y !in q
    ensures q[k] in c && c[q[k]].prev in c && c[q[k]].next in c && IsList(Replace(c, q[k], y), h, q[k := y])
  {
    ListEnds(c, h, q, k);
    var q', c' := q[k := y], Replace(c, q[k], y);
    forall j | 0 <= j < |q'| ensures LinkAt(c', h, q', j) {
      assert LinkAt(c, h, q, j);
    }
  }

  // A list none of whose nodes changed is still a list; its header's prev may change.
  lemma OtherList(c: map<int, Cell>, c': map<int, Cell>, h: int, q: seq<int>)
    requires IsList(c, h, q) && h in c' && c'[h].next == c[h].next
    requires forall k :: 0 <= k < |q| && q[k] in c ==> q[k] in c' && c'[q[k]] == c[q[k]]
    ensures IsList(c', h, q)
  {
    forall k | 0 <= k < |q| ensures LinkAt(c', h, q, k) {
      assert LinkAt(c, h, q, k);
    }
  }

  lemma RemoveMembers(q: seq<int>, k: int, x: int)
    requires NoDup(q) && 0 <= k < |q|
    ensures x in RemoveAt(q, k) <==> x in q && x != q[k]
  {
    var r := RemoveAt(q, k);
    if x in q && x != q[k] {
      var i :| 0 <= i < |q| && q[i] == x;
      assert r[if i < k then i else i - 1] == x;
    }
    if x in r {
      var i :| 0 <= i < |r| && r[i] == x;
      assert q[if i < k then i else i + 1] == x;
    }
  }

  lemma ReplaceMembers(q: seq<int>, k: int, y: int, x: int)
    requires NoDup(q) && 0 <= k < |q|
    ensures x in q[k := y] <==> x == y || (x in q && x != q[k])
  {
    var r := q[k := y];
    if x in q && x != q[k] {
      var i :| 0 <= i < |q| && q[i] == x;
      assert r[i] == x;
    }
    if x == y { assert r[k] == x; }
  }
}
