/** The state changes of the slab pool and the proofs that each keeps its invariant and changes
    exactly one live block. */
module SlabSteps {
  import opened SlabLists
  import opened SlabPool

  const NONE := Cell(NULL, NULL)

  // Pages that are in no list.
  function Cleared(c: map<int, Cell>, i: int, k: int): map<int, Cell> {
    map j | j in c :: if i <= j < i + k then NONE else c[j]
  }

  // ---- ngx_slab_alloc_pages: the first k pages of the f-th free run ----

  ghost predicate CanTake(p: Pool, f: int, k: nat) {
    && Inv(p, -1) && 0 <= f < |p.lists[FreeHeader(p)]| && 0 < k
    && var i := p.lists[FreeHeader(p)][f]; 0 <= i < p.n && p.word[i].Count? && k <= p.word[i].n
  }

  // What the invariant says of a run in the free list.
  lemma RunFacts(p: Pool, f: int, i: int, l: nat)
    requires Inv(p, -1) && 0 <= f < |p.lists[FreeHeader(p)]| && p.lists[FreeHeader(p)][f] == i
    requires 0 <= i < p.n && p.word[i].Count? && p.word[i].n == l
    ensures ListAt(p, FreeHeader(p)) && PartAt(p, i) && p.head[i] == i && 0 < l && i + l <= p.n
    ensures i in p.cell && p.cell[i].prev in p.cell && p.cell[i].next in p.cell
    ensures forall j :: i < j < i + l ==> p.word[j] == Count(0) && p.tag[j] == PageTag && p.head[j] == i
    ensures forall j :: i < j < i + l ==> j !in p.lists[FreeHeader(p)]
  {
    var h := FreeHeader(p);
    assert ListAt(p, h);
    assert i in p.lists[h];
    assert PartAt(p, i);
    UnlinkIsList(p.cell, h, p.lists[h], f);
    forall j | i < j < i + l ensures p.word[j] == Count(0) && p.tag[j] == PageTag && p.head[j] == i &&
      j !in p.lists[h] {
      assert PartAt(p, j);
    }
  }

  ghost function TakenCells(p: Pool, i: int, k: nat, l: nat): map<int, Cell>
    requires i in p.cell && p.cell[i].prev in p.cell && p.cell[i].next in p.cell && (k < l ==> i + k in p.cell)
  {
    Cleared(if k < l then Replace(p.cell, i, i + k) else Unlink(p.cell, i), i, k)
  }

  ghost function Taken(p: Pool, f: int, k: nat): Pool
    requires CanTake(p, f, k)
  {
    var h := FreeHeader(p);
    var i := p.lists[h][f];
    var l := p.word[i].n;
    RunFacts(p, f, i, l);
    p.(cell := TakenCells(p, i, k, l),
       word := seq(p.n, j requires 0 <= j < p.n =>
                 if j == i then Started(k) else if i < j < i + k then PageBusy
                 else if j == i + k && k < l then Count(l - k) else p.word[j]),
       head := seq(p.n, j requires 0 <= j < p.n => if i + k <= j < i + l then i + k else p.head[j]),
       lists := p.lists[h := if k < l then p.lists[h][f := i + k] else RemoveAt(p.lists[h], f)])
  }

  lemma TakenPart(p: Pool, f: int, k: nat, j: int)
    requires CanTake(p, f, k) && 0 <= j < p.n
    ensures PartAt(Taken(p, f, k), j)
  {
    var i := p.lists[FreeHeader(p)][f];
    if i <= j < i + p.word[i].n {
      TakenPartRun(p, f, k, j);
    } else {
      TakenPartRest(p, f, k, j);
    }
  }

  lemma TakenPartRun(p: Pool, f: int, k: nat, j: int)
    requires CanTake(p, f, k) && var i := p.lists[FreeHeader(p)][f]; i <= j < i + p.word[i].n
    ensures PartAt(Taken(p, f, k), j)
  {
    var i := p.lists[FreeHeader(p)][f];
    RunFacts(p, f, i, p.word[i].n);
  }

  lemma TakenPartRest(p: Pool, f: int, k: nat, j: int)
    requires CanTake(p, f, k) && 0 <= j < p.n && var i := p.lists[FreeHeader(p)][f]; !(i <= j < i + p.word[i].n)
    ensures PartAt(Taken(p, f, k), j)
  {
    var i := p.lists[FreeHeader(p)][f];
    RunFacts(p, f, i, p.word[i].n);
    assert PartAt(p, j);
    assert PartAt(p, p.head[j]);
  }

  lemma TakenFreeIsList(p: Pool, f: int, k: nat)
    requires CanTake(p, f, k)
    ensures var t := Taken(p, f, k); IsList(t.cell, FreeHeader(p), t.lists[FreeHeader(p)])
  {
    var h := FreeHeader(p);
    var q := p.lists[h];
    var i := q[f];
    var l := p.word[i].n;
    RunFacts(p, f, i, l);
    var c := TakenCells(p, i, k, l);
    if k < l {
      ReplaceIsList(p.cell, h, q, f, i + k);
      TakenOutside(p, f, k, q[f := i + k]);
      OtherList(Replace(p.cell, i, i + k), c, h, q[f := i + k]);
    } else {
      UnlinkIsList(p.cell, h, q, f);
      TakenOutside(p, f, k, RemoveAt(q, f));
      OtherList(Unlink(p.cell, i), c, h, RemoveAt(q, f));
    }
  }

  // What stays in the free list lies outside the pages taken.
  lemma TakenOutside(p: Pool, f: int, k: nat, q': seq<int>)
    requires CanTake(p, f, k)
    requires var q, i := p.lists[FreeHeader(p)], p.lists[FreeHeader(p)][f];
      q' == if k < p.word[i].n then q[f := i + k] else RemoveAt(q, f)
    ensures var i := p.lists[FreeHeader(p)][f]; forall m :: 0 <= m < |q'| ==> !(i <= q'[m] < i + k)
  {
    var q, i := p.lists[FreeHeader(p)], p.lists[FreeHeader(p)][f];
    RunFacts(p, f, i, p.word[i].n);
    forall m | 0 <= m < |q'| ensures !(i <= q'[m] < i + k) {
      if k < p.word[i].n { ReplaceMembers(q, f, i + k, q'[m]); } else { RemoveMembers(q, f, q'[m]); }
    }
  }

  lemma TakenFreeList(p: Pool, f: int, k: nat)
    requires CanTake(p, f, k)
    ensures ListAt(Taken(p, f, k), FreeHeader(p))
  {
    TakenFreeIsList(p, f, k);
    var h := FreeHeader(p);
    var q, t := p.lists[h], Taken(p, f, k);
    var i := q[f];
    RunFacts(p, f, i, p.word[i].n);
    forall j ensures j in t.lists[h] <==> Listed(t, h, j) {
      assert j in q <==> Listed(p, h, j);
      if k < p.word[i].n { ReplaceMembers(q, f, i + k, j); } else { RemoveMembers(q, f, j); }
    }
  }

  // The other lists do not touch the free list.
  lemma TakenSlotList(p: Pool, f: int, k: nat, h: int)
    requires CanTake(p, f, k) && IsHeader(p, h) && h != FreeHeader(p)
    ensures ListAt(Taken(p, f, k), h)
  {
    var fh := FreeHeader(p);
    var i, t := p.lists[fh][f], Taken(p, f, k);
    RunFacts(p, f, i, p.word[i].n);
    assert ListAt(p, h);
    ListNeighbours(p, fh, f, i);
    forall m | 0 <= m < |p.lists[h]| ensures p.lists[h][m] in t.cell && t.cell[p.lists[h][m]] == p.cell[p.lists[h][m]] {
      assert p.lists[h][m] in p.lists[h];
    }
    OtherList(p.cell, t.cell, h, p.lists[h]);
  }

  // The neighbours of a page in a list are pages of that list or its header.
  lemma ListNeighbours(p: Pool, h: int, f: int, i: int)
    requires ListAt(p, h) && 0 <= f < |p.lists[h]| && p.lists[h][f] == i
    ensures i in p.cell && i != h && i != NULL
    ensures p.cell[i].prev in p.cell && (p.cell[i].prev == h || Listed(p, h, p.cell[i].prev))
    ensures p.cell[i].next in p.cell && (p.cell[i].next == h || Listed(p, h, p.cell[i].next))
  {
    ListEnds(p.cell, h, p.lists[h], f);
    assert f > 0 ==> p.lists[h][f - 1] in p.lists[h];
    assert f + 1 < |p.lists[h]| ==> p.lists[h][f + 1] in p.lists[h];
  }

  lemma TakenInv(p: Pool, f: int, k: nat)
    requires CanTake(p, f, k)
    ensures Inv(Taken(p, f, k), -1)
  {
    var t := Taken(p, f, k);
    var i := p.lists[FreeHeader(p)][f];
    RunFacts(p, f, i, p.word[i].n);
    ListNeighbours(p, FreeHeader(p), f, i);
    forall j | 0 <= j < p.n ensures PartAt(t, j) {
      TakenPart(p, f, k, j);
    }
    forall h | IsHeader(t, h) ensures ListAt(t, h) {
      if h == FreeHeader(p) { TakenFreeList(p, f, k); } else { TakenSlotList(p, f, k, h); }
    }
    forall j | 0 <= j < p.n ensures NextAt(t, j) && UsedAt(t, j, -1) {
      TakenNext(p, f, k, j);
    }
  }

  lemma TakenNext(p: Pool, f: int, k: nat, j: int)
    requires CanTake(p, f, k) && 0 <= j < p.n
    ensures NextAt(Taken(p, f, k), j) && UsedAt(Taken(p, f, k), j, -1)
  {
    var i := p.lists[FreeHeader(p)][f];
    RunFacts(p, f, i, p.word[i].n);
    ListNeighbours(p, FreeHeader(p), f, i);
    assert NextAt(p, j) && UsedAt(p, j, -1);
  }

  // Exactly the block of k pages becomes live.
  lemma TakenLive(p: Pool, f: int, k: nat, b: Block)
    requires CanTake(p, f, k)
    ensures Live(Taken(p, f, k), b) <==> Live(p, b) || b == Run(p.lists[FreeHeader(p)][f], k)
    ensures !Live(p, Run(p.lists[FreeHeader(p)][f], k))
  {
    var i := p.lists[FreeHeader(p)][f];
    RunFacts(p, f, i, p.word[i].n);
  }

  // ---- ngx_slab_free_pages: block or emptied slab page i goes to the front of the free list ----

  ghost predicate CanGive(p: Pool, i: int, x: int) {
    && Inv(p, x) && 0 <= i < p.n && p.head[i] == i && !p.word[i].Count?
    && (x == -1 || x == i)
    && (p.word[i].Layout? ==> x == i && !HasLive(p.used[i], Reserved(p.word[i].shift)) && HasFree(p.used[i]))
  }

  ghost function SlotIndex(p: Pool, i: int): int
    requires Sized(p) && 0 <= i < p.n && p.word[i].Layout? && MIN_SHIFT <= p.word[i].shift < PAGE_SHIFT
    requires i in p.lists[SlotHeader(p, p.word[i].shift)]
    ensures 0 <= SlotIndex(p, i) < |p.lists[SlotHeader(p, p.word[i].shift)]|
    ensures p.lists[SlotHeader(p, p.word[i].shift)][SlotIndex(p, i)] == i
  {
    var f :| 0 <= f < |p.lists[SlotHeader(p, p.word[i].shift)]| && p.lists[SlotHeader(p, p.word[i].shift)][f] == i;
    f
  }

  lemma GiveFacts(p: Pool, i: int, x: int)
    requires CanGive(p, i, x)
    ensures PartAt(p, i) && i in p.cell && ListAt(p, FreeHeader(p)) && i !in p.lists[FreeHeader(p)]
    ensures forall j :: i < j < i + Len(p.word[i]) ==> p.word[j] == PageBusy && p.tag[j] == PageTag && p.head[j] == i
    ensures p.word[i].Layout? ==>
      && i in p.lists[SlotHeader(p, p.word[i].shift)] && ListAt(p, SlotHeader(p, p.word[i].shift))
      && p.cell[i].next != NULL && p.cell[i].prev in p.cell && p.cell[i].next in p.cell
    ensures !p.word[i].Layout? ==> p.cell[i].next == NULL
  {
    assert PartAt(p, i) && NextAt(p, i) && ListAt(p, FreeHeader(p));
    forall j | i < j < i + Len(p.word[i]) ensures p.word[j] == PageBusy && p.tag[j] == PageTag && p.head[j] == i {
      assert PartAt(p, j);
    }
    if p.word[i].Layout? {
      var h := SlotHeader(p, p.word[i].shift);
      assert ListAt(p, h);
      ListNeighbours(p, h, SlotIndex(p, i), i);
    }
  }

  // The state once the page is out of its slot list.
  ghost function Detached(p: Pool, i: int, x: int): Pool
    requires CanGive(p, i, x)
  {
    GiveFacts(p, i, x);
    var c := if p.word[i].Layout? then Unlink(p.cell, i) else p.cell;
    p.(cell := Cleared(c, i, Len(p.word[i])),
       lists := if p.word[i].Layout? then
                  var h := SlotHeader(p, p.word[i].shift); p.lists[h := RemoveAt(p.lists[h], SlotIndex(p, i))]
                else p.lists)
  }

  ghost function Given(p: Pool, i: int, x: int): Pool
    requires CanGive(p, i, x)
    requires FreeHeader(p) in Detached(p, i, x).cell &&
      Detached(p, i, x).cell[FreeHeader(p)].next in Detached(p, i, x).cell
    requires i in Detached(p, i, x).cell
  {
    var d, h, k := Detached(p, i, x), FreeHeader(p), Len(p.word[i]);
    GiveFacts(p, i, x);
    d.(cell := PushFront(d.cell, h, i),
       word := seq(p.n, j requires 0 <= j < p.n => if j == i then Count(k) else if i < j < i + k then Count(0)
         else p.word[j]),
       tag := p.tag[i := PageTag],
       lists := d.lists[h := [i] + p.lists[h]])
  }

  // Detaching the page leaves every list a list.
  lemma DetachedLists(p: Pool, i: int, x: int, h: int)
    requires CanGive(p, i, x) && IsHeader(p, h)
    ensures h in p.lists && IsList(Detached(p, i, x).cell, h, Detached(p, i, x).lists[h])
    ensures forall j :: j in Detached(p, i, x).lists[h] <==> j in p.lists[h] && j != i
  {
    GiveFacts(p, i, x);
    assert ListAt(p, h);
    var d, q := Detached(p, i, x), p.lists[h];
    if p.word[i].Layout? && h == SlotHeader(p, p.word[i].shift) {
      var f := SlotIndex(p, i);
      UnlinkIsList(p.cell, h, q, f);
      forall j ensures j in RemoveAt(q, f) <==> j in q && j != i {
        RemoveMembers(q, f, j);
      }
      forall m | 0 <= m < |RemoveAt(q, f)| ensures RemoveAt(q, f)[m] in d.cell && RemoveAt(q, f)[m] != i {
        assert RemoveAt(q, f)[m] in RemoveAt(q, f);
        assert RemoveAt(q, f)[m] in q;
      }
      OtherList(Unlink(p.cell, i), d.cell, h, RemoveAt(q, f));
    } else {
      if p.word[i].Layout? { ListNeighbours(p, SlotHeader(p, p.word[i].shift), SlotIndex(p, i), i); }
      forall m | 0 <= m < |q| ensures q[m] in d.cell && d.cell[q[m]] == p.cell[q[m]] {
        assert q[m] in p.lists[h];
      }
      OtherList(p.cell, d.cell, h, q);
    }
  }

  lemma GivenReady(p: Pool, i: int, x: int)
    requires CanGive(p, i, x)
    ensures var d, h := Detached(p, i, x), FreeHeader(p);
      h in d.cell && d.cell[h].next in d.cell && i in d.cell && d.lists[h] == p.lists[h] &&
        IsList(d.cell, h, p.lists[h])
      && (d.cell[h].next == h || d.cell[h].next in p.lists[h])
  {
    var d, h := Detached(p, i, x), FreeHeader(p);
    GiveFacts(p, i, x);
    DetachedLists(p, i, x, h);
    assert |p.lists[h]| > 0 ==> LinkAt(d.cell, h, p.lists[h], 0);
  }

  // The order of the writes in the source gives the same descriptors.
  lemma GivenCells(p: Pool, i: int, x: int)
    requires CanGive(p, i, x)
    ensures Linkable(p.cell, FreeHeader(p), i, Len(p.word[i]))
    ensures FreedCells(p.cell, FreeHeader(p), i, Len(p.word[i])) == (GivenReady(p, i, x); Given(p, i, x)).cell
  {
    GiveFacts(p, i, x);
    GivenReady(p, i, x);
    var k, fh := Len(p.word[i]), FreeHeader(p);
    var c := Cleared(p.cell, i + 1, k - 1);
    var d := Detached(p, i, x);
    if p.word[i].Layout? {
      assert c == p.cell;
      ListNeighbours(p, SlotHeader(p, p.word[i].shift), SlotIndex(p, i), i);
    }
    var c1 := if c[i].next != NULL then Unlink(c, i) else c;
    assert d.cell == c1[i := NONE];
    PushForgets(c1, fh, i);
  }

  // What was in the links of a page does not matter when it is put in a list.
  lemma PushForgets(c: map<int, Cell>, h: int, i: int)
    requires h in c && i in c && i != h && c[h].next in c && c[h].next != i
    ensures PushFront(c, h, i) == PushFront(c[i := NONE], h, i)
  {}

  lemma GivenPart(p: Pool, i: int, x: int, j: int)
    requires CanGive(p, i, x) && 0 <= j < p.n
    ensures (GivenReady(p, i, x); PartAt(Given(p, i, x), j))
  {
    GiveFacts(p, i, x);
    GivenReady(p, i, x);
    assert PartAt(p, j);
    assert PartAt(p, p.head[j]);
  }

  lemma GivenList(p: Pool, i: int, x: int, h: int)
    requires CanGive(p, i, x) && IsHeader(p, h)
    ensures (GivenReady(p, i, x); ListAt(Given(p, i, x), h))
  {
    GiveFacts(p, i, x);
    GivenReady(p, i, x);
    DetachedLists(p, i, x, h);
    var d, t, fh := Detached(p, i, x), Given(p, i, x), FreeHeader(p);
    assert ListAt(p, h);
    if h == fh {
      PushFrontIsList(d.cell, h, p.lists[h], i);
    } else {
      var q := d.lists[h];
      forall m | 0 <= m < |q| ensures q[m] in t.cell && (q[m] in d.cell ==> t.cell[q[m]] == d.cell[q[m]]) {
        assert q[m] in q;
        assert q[m] in p.lists[h];
        assert ListAt(p, fh);
      }
      OtherList(d.cell, t.cell, h, q);
    }
    forall j ensures j in t.lists[h] <==> Listed(t, h, j) {
      assert j in p.lists[h] <==> Listed(p, h, j);
    }
  }

  lemma GivenInv(p: Pool, i: int, x: int)
    requires CanGive(p, i, x)
    ensures (GivenReady(p, i, x); Inv(Given(p, i, x), -1))
  {
    GiveFacts(p, i, x);
    GivenReady(p, i, x);
    var t := Given(p, i, x);
    forall j | 0 <= j < p.n ensures PartAt(t, j) {
      GivenPart(p, i, x, j);
    }
    forall h | IsHeader(t, h) ensures ListAt(t, h) {
      GivenList(p, i, x, h);
    }
    forall j | 0 <= j < p.n ensures UsedAt(t, j, -1) {
      assert UsedAt(p, j, x);
    }
    forall j | 0 <= j < p.n ensures NextAt(t, j) {
      GivenNext(p, i, x, j);
    }
  }

  lemma GivenNext(p: Pool, i: int, x: int, j: int)
    requires CanGive(p, i, x) && 0 <= j < p.n
    ensures (GivenReady(p, i, x); NextAt(Given(p, i, x), j))
  {
    GiveFacts(p, i, x);
    GivenReady(p, i, x);
    assert NextAt(p, j);
    assert ListAt(p, FreeHeader(p));
    if p.word[i].Layout? { ListNeighbours(p, SlotHeader(p, p.word[i].shift), SlotIndex(p, i), i); }
  }

  // Exactly the block at page i, if it was a live one, is gone.
  lemma GivenLive(p: Pool, i: int, x: int, b: Block)
    requires CanGive(p, i, x)
    ensures (GivenReady(p, i, x); Live(Given(p, i, x), b) <==> Live(p, b) && b != Run(i, Len(p.word[i])))
  {
    GiveFacts(p, i, x);
    GivenReady(p, i, x);
    assert UsedAt(p, i, x);
  }

  // ---- a page just taken is cut into chunks, the first of them for the caller ----

  function FreshBitmap(s: nat): seq<bool> {
    seq(Chunks(s), j => j <= Reserved(s))
  }

  ghost predicate CanCut(p: Pool, i: int, s: nat) {
    && Inv(p, -1) && 0 <= i < p.n && p.word[i] == Started(1) && p.head[i] == i && MIN_SHIFT <= s < PAGE_SHIFT
    && SlotHeader(p, s) in p.lists && p.lists[SlotHeader(p, s)] == []
  }

  ghost function Cut(p: Pool, i: int, s: nat): Pool
    requires CanCut(p, i, s)
  {
    var h := SlotHeader(p, s);
    p.(cell := p.cell[i := Cell(h, h)][h := p.cell[h].(next := i)],
       tag := p.tag[i := TagOf(s)], word := p.word[i := Layout(s)], used := p.used[i := FreshBitmap(s)],
       lists := p.lists[h := [i]])
  }

  lemma FreshBitmapFacts(s: nat)
    requires MIN_SHIFT <= s < PAGE_SHIFT
    ensures var u := FreshBitmap(s);
      && |u| == Chunks(s) && Reserved(s) + 1 < |u| && HasFree(u) && HasLive(u, Reserved(s))
      && (forall j :: 0 <= j < |u| ==> (u[j] <==> j <= Reserved(s)))
  {
    var u := FreshBitmap(s);
    assert !u[Reserved(s) + 1] && u[Reserved(s)];
  }

  lemma CutList(p: Pool, i: int, s: nat, h: int)
    requires CanCut(p, i, s) && IsHeader(p, h)
    ensures ListAt(Cut(p, i, s), h)
  {
    FreshBitmapFacts(s);
    assert ListAt(p, h) && NextAt(p, i);
    var t, q := Cut(p, i, s), p.lists[h];
    if h == SlotHeader(p, s) {
      assert LinkAt(t.cell, h, [i], 0);
      assert IsList(t.cell, h, [i]);
    } else {
      forall m | 0 <= m < |q| ensures q[m] in t.cell && (q[m] in p.cell ==> t.cell[q[m]] == p.cell[q[m]]) {
        assert q[m] in p.lists[h];
      }
      OtherList(p.cell, t.cell, h, q);
    }
    forall j ensures j in t.lists[h] <==> Listed(t, h, j) {
      assert j in p.lists[h] <==> Listed(p, h, j);
      assert ListAt(p, SlotHeader(p, s));
      assert j in p.lists[SlotHeader(p, s)] <==> Listed(p, SlotHeader(p, s), j);
    }
  }

  lemma CutInv(p: Pool, i: int, s: nat)
    requires CanCut(p, i, s)
    ensures Inv(Cut(p, i, s), -1)
  {
    FreshBitmapFacts(s);
    var t := Cut(p, i, s);
    forall h | IsHeader(t, h) ensures ListAt(t, h) {
      CutList(p, i, s, h);
    }
    forall j | 0 <= j < p.n ensures PartAt(t, j) && NextAt(t, j) && UsedAt(t, j, -1) {
      assert PartAt(p, j) && NextAt(p, j) && UsedAt(p, j, -1) && PartAt(p, i);
    }
  }

  lemma CutLive(p: Pool, i: int, s: nat, b: Block)
    requires CanCut(p, i, s)
    ensures Live(Cut(p, i, s), b) <==> (Live(p, b) && b != Run(i, 1)) || b == Chunk(i, s, Reserved(s))
  {
    FreshBitmapFacts(s);
  }

  // ---- one more chunk of a listed slab page goes to the caller ----

  ghost predicate CanUse(p: Pool, i: int, j: int) {
    && Inv(p, -1) && 0 <= i < p.n && p.word[i].Layout? && 0 <= j < |p.used[i]| && !p.used[i][j]
    && MIN_SHIFT <= p.word[i].shift < PAGE_SHIFT && i in p.lists[SlotHeader(p, p.word[i].shift)]
  }

  lemma UseFacts(p: Pool, i: int, j: int)
    requires CanUse(p, i, j)
    ensures PartAt(p, i) && UsedAt(p, i, -1) && Reserved(p.word[i].shift) <= j
    ensures i in p.cell && p.cell[i].prev in p.cell && p.cell[i].next in p.cell
  {
    assert PartAt(p, i) && UsedAt(p, i, -1) && ListAt(p, SlotHeader(p, p.word[i].shift));
    ListNeighbours(p, SlotHeader(p, p.word[i].shift), SlotIndex(p, i), i);
  }

  ghost function Used(p: Pool, i: int, j: int): Pool
    requires CanUse(p, i, j)
  {
    UseFacts(p, i, j);
    var h, u := SlotHeader(p, p.word[i].shift), p.used[i][j := true];
    if HasFree(u) then p.(used := p.used[i := u])
    else p.(used := p.used[i := u], cell := Unlink(p.cell, i)[i := NONE],
            lists := p.lists[h := RemoveAt(p.lists[h], SlotIndex(p, i))])
  }

  lemma UsedList(p: Pool, i: int, j: int, h: int)
    requires CanUse(p, i, j) && IsHeader(p, h)
    ensures ListAt(Used(p, i, j), h)
  {
    UseFacts(p, i, j);
    assert ListAt(p, h);
    var t, q, sh := Used(p, i, j), p.lists[h], SlotHeader(p, p.word[i].shift);
    var u := p.used[i][j := true];
    if !HasFree(u) {
      ListNeighbours(p, sh, SlotIndex(p, i), i);
      if h == sh {
        var f := SlotIndex(p, i);
        UnlinkIsList(p.cell, h, q, f);
        forall x ensures x in RemoveAt(q, f) <==> x in q && x != i {
          RemoveMembers(q, f, x);
        }
        forall m | 0 <= m < |RemoveAt(q, f)| ensures RemoveAt(q, f)[m] in t.cell && RemoveAt(q, f)[m] != i {
          assert RemoveAt(q, f)[m] in RemoveAt(q, f);
          assert RemoveAt(q, f)[m] in q;
        }
        OtherList(Unlink(p.cell, i), t.cell, h, RemoveAt(q, f));
      } else {
        forall m | 0 <= m < |q| ensures q[m] in t.cell && (q[m] in p.cell ==> t.cell[q[m]] == p.cell[q[m]]) {
          assert q[m] in p.lists[h];
        }
        OtherList(p.cell, t.cell, h, q);
      }
    }
    forall x ensures x in t.lists[h] <==> Listed(t, h, x) {
      assert x in p.lists[h] <==> Listed(p, h, x);
    }
  }

  lemma UsedInv(p: Pool, i: int, j: int)
    requires CanUse(p, i, j)
    ensures Inv(Used(p, i, j), -1)
  {
    UseFacts(p, i, j);
    var t, s := Used(p, i, j), p.word[i].shift;
    forall h | IsHeader(t, h) ensures ListAt(t, h) {
      UsedList(p, i, j, h);
    }
    assert t.used[i][j];
    forall x | 0 <= x < p.n ensures PartAt(t, x) && UsedAt(t, x, -1) {
      assert PartAt(p, x) && UsedAt(p, x, -1);
    }
    forall x | 0 <= x < p.n ensures NextAt(t, x) {
      UsedNext(p, i, j, x);
    }
  }

  lemma UsedNext(p: Pool, i: int, j: int, x: int)
    requires CanUse(p, i, j) && 0 <= x < p.n
    ensures NextAt(Used(p, i, j), x)
  {
    UseFacts(p, i, j);
    assert NextAt(p, x) && ListAt(p, SlotHeader(p, p.word[i].shift));
    ListNeighbours(p, SlotHeader(p, p.word[i].shift), SlotIndex(p, i), i);
  }

  lemma UsedLive(p: Pool, i: int, j: int, b: Block)
    requires CanUse(p, i, j)
    ensures Live(Used(p, i, j), b) <==> Live(p, b) || b == Chunk(i, p.word[i].shift, j)
    ensures !Live(p, Chunk(i, p.word[i].shift, j))
  {
    UseFacts(p, i, j);
  }

  // ---- a chunk in use comes back; a page that was full goes to the front of its slot list ----

  ghost predicate InUse(p: Pool, i: int, j: int) {
    Inv(p, -1) && 0 <= i < p.n && p.word[i].Layout? && MIN_SHIFT <= p.word[i].shift < PAGE_SHIFT &&
      0 <= j < |p.used[i]| && p.used[i][j]
  }

  lemma ReleaseFacts(p: Pool, i: int, j: int)
    requires InUse(p, i, j)
    ensures PartAt(p, i) && UsedAt(p, i, -1) && i in p.cell
    ensures var h := SlotHeader(p, p.word[i].shift);
      && ListAt(p, h) && h in p.cell && p.cell[h].next in p.cell && i != h
      && (i in p.lists[h] <==> HasFree(p.used[i])) && (p.cell[i].next == NULL <==> !HasFree(p.used[i]))
      && (p.cell[h].next == h || p.cell[h].next in p.lists[h])
  {
    var h := SlotHeader(p, p.word[i].shift);
    assert PartAt(p, i) && UsedAt(p, i, -1) && ListAt(p, h) && NextAt(p, i);
    assert |p.lists[h]| > 0 ==> LinkAt(p.cell, h, p.lists[h], 0);
    assert i in p.lists[h] <==> Listed(p, h, i);
    if i in p.lists[h] { ListNeighbours(p, h, SlotIndex(p, i), i); }
  }

  ghost function Released(p: Pool, i: int, j: int): Pool
    requires InUse(p, i, j)
  {
    ReleaseFacts(p, i, j);
    var h, u := SlotHeader(p, p.word[i].shift), p.used[i][j := false];
    if HasFree(p.used[i]) then p.(used := p.used[i := u])
    else p.(used := p.used[i := u], cell := PushFront(p.cell, h, i), lists := p.lists[h := [i] + p.lists[h]])
  }

  lemma ReleasedList(p: Pool, i: int, j: int, h: int)
    requires InUse(p, i, j) && IsHeader(p, h)
    ensures ListAt(Released(p, i, j), h)
  {
    ReleaseFacts(p, i, j);
    assert ListAt(p, h);
    var t, q, sh := Released(p, i, j), p.lists[h], SlotHeader(p, p.word[i].shift);
    assert !t.used[i][j];
    if !HasFree(p.used[i]) {
      if h == sh {
        PushFrontIsList(p.cell, h, q, i);
      } else {
        forall m | 0 <= m < |q| ensures q[m] in t.cell && (q[m] in p.cell ==> t.cell[q[m]] == p.cell[q[m]]) {
          assert q[m] in p.lists[h];
        }
        OtherList(p.cell, t.cell, h, q);
      }
    }
    forall x ensures x in t.lists[h] <==> Listed(t, h, x) {
      assert x in p.lists[h] <==> Listed(p, h, x);
    }
  }

  // A chunk past the reserved ones: the invariant is kept, but for a page that is now empty,
  lemma ReleasedInv(p: Pool, i: int, j: int)
    requires InUse(p, i, j) && Reserved(p.word[i].shift) <= j
    ensures Inv(Released(p, i, j), i)
    ensures HasLive(Released(p, i, j).used[i], Reserved(p.word[i].shift)) ==> Inv(Released(p, i, j), -1)
  {
    ReleaseFacts(p, i, j);
    var t := Released(p, i, j);
    forall h | IsHeader(t, h) ensures ListAt(t, h) {
      ReleasedList(p, i, j, h);
    }
    assert !t.used[i][j];
    forall x | 0 <= x < p.n
      ensures PartAt(t, x) && UsedAt(t, x, i) && NextAt(t, x)
      ensures HasLive(t.used[i], Reserved(p.word[i].shift)) ==> UsedAt(t, x, -1)
    {
      assert PartAt(p, x) && UsedAt(p, x, -1) && NextAt(p, x);
    }
  }

  lemma ReleasedLive(p: Pool, i: int, j: int, b: Block)
    requires InUse(p, i, j) && Reserved(p.word[i].shift) <= j
    ensures Live(Released(p, i, j), b) <==> Live(p, b) && b != Chunk(i, p.word[i].shift, j)
    ensures Live(p, Chunk(i, p.word[i].shift, j))
  {
    ReleaseFacts(p, i, j);
  }

  // and a chunk of the bitmap: the invariant is broken, and the chunk stands in its slot list to be handed out.
  lemma ReleasedBitmap(p: Pool, i: int, j: int)
    requires InUse(p, i, j) && j < Reserved(p.word[i].shift)
    ensures var t, h := Released(p, i, j), SlotHeader(p, p.word[i].shift);
      && !Inv(t, -1) && HasLive(t.used[i], Reserved(p.word[i].shift)) && !t.used[i][j] && h in t.lists &&
         i in t.lists[h]
  {
    ReleaseFacts(p, i, j);
    var t, r := Released(p, i, j), Reserved(p.word[i].shift);
    var k :| r <= k < |p.used[i]| && p.used[i][k];
    assert t.used[i][k] && !t.used[i][j];
    assert !UsedAt(t, i, -1);
  }

  // ---- ngx_slab_free_pages of a run that is free already: it moves to the front of the free list ----

  ghost predicate CanMove(p: Pool, i: int) {
    Inv(p, -1) && 0 <= i < p.n && p.word[i].Count? && p.word[i].n > 0
  }

  ghost function FreeIndex(p: Pool, i: int): int
    requires CanMove(p, i)
    ensures FreeHeader(p) in p.lists && 0 <= FreeIndex(p, i) < |p.lists[FreeHeader(p)]| &&
      p.lists[FreeHeader(p)][FreeIndex(p, i)] == i
  {
    assert ListAt(p, FreeHeader(p)) && Listed(p, FreeHeader(p), i);
    assert i in p.lists[FreeHeader(p)];
    var f :| 0 <= f < |p.lists[FreeHeader(p)]| && p.lists[FreeHeader(p)][f] == i;
    f
  }

  // The descriptors after the writes of ngx_slab_free_pages
  ghost predicate Linkable(c: map<int, Cell>, h: int, i: int, k: nat) {
    && i in c && h in c && i != h && k > 0 && !(i < h < i + k)
    && var c0 := Cleared(c, i + 1, k - 1);
    && (c0[i].next != NULL ==> c0[i].prev in c0 && c0[i].next in c0)
    && var c1 := if c0[i].next != NULL then Unlink(c0, i) else c0;
    && i in c1 && h in c1 && c1[h].next in c1
  }

  ghost function FreedCells(c: map<int, Cell>, h: int, i: int, k: nat): map<int, Cell>
    requires Linkable(c, h, i, k)
  {
    var c0 := Cleared(c, i + 1, k - 1);
    var c1 := if c0[i].next != NULL then Unlink(c0, i) else c0;
    PushFront(c1, h, i)
  }

  // Clearing the inner pages of a free run changes no list.
  lemma ClearedLists(p: Pool, i: int, h: int)
    requires CanMove(p, i) && IsHeader(p, h)
    ensures h in p.lists && IsList(Cleared(p.cell, i + 1, p.word[i].n - 1), h, p.lists[h])
    ensures forall j :: i < j < i + p.word[i].n ==> j !in p.lists[h]
  {
    var c, q := Cleared(p.cell, i + 1, p.word[i].n - 1), p.lists[h];
    RunFacts(p, FreeIndex(p, i), i, p.word[i].n);
    assert ListAt(p, h);
    forall j | i < j < i + p.word[i].n ensures j !in q {
      assert j in q <==> Listed(p, h, j);
    }
    forall m | 0 <= m < |q| ensures q[m] in c && c[q[m]] == p.cell[q[m]] {
      assert q[m] in q;
      assert LinkAt(p.cell, h, q, m);
    }
    OtherList(p.cell, c, h, q);
  }

  lemma MoveReady(p: Pool, i: int)
    requires CanMove(p, i)
    ensures Linkable(p.cell, FreeHeader(p), i, p.word[i].n)
    ensures var h, f := FreeHeader(p), FreeIndex(p, i); var c0 := Cleared(p.cell, i + 1, p.word[i].n - 1);
      && c0[i].next != NULL && i !in RemoveAt(p.lists[h], f) && IsList(Unlink(c0, i), h, RemoveAt(p.lists[h], f))
  {
    var h, f := FreeHeader(p), FreeIndex(p, i);
    var c0, q := Cleared(p.cell, i + 1, p.word[i].n - 1), p.lists[h];
    RunFacts(p, f, i, p.word[i].n);
    ClearedLists(p, i, h);
    ListEnds(c0, h, q, f);
    UnlinkIsList(c0, h, q, f);
    RemoveMembers(q, f, i);
    var c1, r := Unlink(c0, i), RemoveAt(q, f);
    assert |r| > 0 ==> LinkAt(c1, h, r, 0);
  }

  ghost function Moved(p: Pool, i: int): Pool
    requires CanMove(p, i)
  {
    MoveReady(p, i);
    var h := FreeHeader(p);
    p.(cell := FreedCells(p.cell, h, i, p.word[i].n),
      lists := p.lists[h := [i] + RemoveAt(p.lists[h], FreeIndex(p, i))])
  }

  // Only descriptors of the free list, its header and the inner pages of the run are written.
  lemma MovedCells(p: Pool, i: int, x: int)
    requires CanMove(p, i) && x in p.cell && x != FreeHeader(p) && x !in p.lists[FreeHeader(p)] &&
      !(i < x < i + p.word[i].n)
    ensures x in Moved(p, i).cell && Moved(p, i).cell[x] == p.cell[x]
  {
    MoveReady(p, i);
    var h, f := FreeHeader(p), FreeIndex(p, i);
    var c0, q := Cleared(p.cell, i + 1, p.word[i].n - 1), p.lists[h];
    ClearedLists(p, i, h);
    ListEnds(c0, h, q, f);
    assert c0[i].prev == Nth(h, q, f - 1) && c0[i].next == Nth(h, q, f + 1);
    var c1, r := Unlink(c0, i), RemoveAt(q, f);
    assert c1[h].next == Nth(h, r, 0);
    assert |r| > 0 ==> r[0] in r && r[0] in q;
    assert i in q;
    assert c1[x] == c0[x] == p.cell[x];
  }

  lemma MovedList(p: Pool, i: int, h: int)
    requires CanMove(p, i) && IsHeader(p, h)
    ensures ListAt(Moved(p, i), h)
  {
    MoveReady(p, i);
    var t, fh, f := Moved(p, i), FreeHeader(p), FreeIndex(p, i);
    assert ListAt(p, h) && ListAt(p, fh);
    var q := p.lists[h];
    if h == fh {
      var c1 := Unlink(Cleared(p.cell, i + 1, p.word[i].n - 1), i);
      PushFrontIsList(c1, h, RemoveAt(q, f), i);
      forall j ensures j in t.lists[h] <==> j in q { RemoveMembers(q, f, j); }
    } else {
      RunFacts(p, f, i, p.word[i].n);
      forall m | 0 <= m < |q| ensures q[m] in t.cell && t.cell[q[m]] == p.cell[q[m]] {
        assert q[m] in q && LinkAt(p.cell, h, q, m);
        assert Listed(p, h, q[m]);
        MovedCells(p, i, q[m]);
      }
      assert h !in p.lists[fh];
      MovedCells(p, i, h);
      OtherList(p.cell, t.cell, h, q);
    }
    forall j ensures j in t.lists[h] <==> Listed(t, h, j) {
      assert j in q <==> Listed(p, h, j);
    }
  }

  lemma MovedNext(p: Pool, i: int, j: int)
    requires CanMove(p, i) && 0 <= j < p.n
    ensures NextAt(Moved(p, i), j)
  {
    MoveReady(p, i);
    RunFacts(p, FreeIndex(p, i), i, p.word[i].n);
    assert NextAt(p, j) && ListAt(p, FreeHeader(p));
    assert j in p.lists[FreeHeader(p)] <==> Listed(p, FreeHeader(p), j);
    if i < j < i + p.word[i].n {
      MovedInner(p, i, j);
    } else if j !in p.lists[FreeHeader(p)] {
      MovedCells(p, i, j);
    } else {
      assert j in Moved(p, i).cell;
    }
  }

  lemma MovedInner(p: Pool, i: int, x: int)
    requires CanMove(p, i) && i < x < i + p.word[i].n && x in p.cell
    ensures x in Moved(p, i).cell && Moved(p, i).cell[x] == NONE
  {
    MoveReady(p, i);
    var h, f := FreeHeader(p), FreeIndex(p, i);
    var c0, q := Cleared(p.cell, i + 1, p.word[i].n - 1), p.lists[h];
    RunFacts(p, f, i, p.word[i].n);
    ClearedLists(p, i, h);
    ListEnds(c0, h, q, f);
    assert c0[i].prev == Nth(h, q, f - 1) && c0[i].next == Nth(h, q, f + 1);
    var c1, r := Unlink(c0, i), RemoveAt(q, f);
    assert c1[h].next == Nth(h, r, 0);
    assert |r| > 0 ==> r[0] in r && r[0] in q;
    assert x !in q;
  }

  lemma MovedInv(p: Pool, i: int)
    requires CanMove(p, i)
    ensures Inv(Moved(p, i), -1) && forall b :: Live(Moved(p, i), b) <==> Live(p, b)
  {
    MoveReady(p, i);
    var t := Moved(p, i);
    forall j | 0 <= j < p.n ensures PartAt(t, j) && UsedAt(t, j, -1) && NextAt(t, j) {
      assert PartAt(p, j) && UsedAt(p, j, -1);
      MovedNext(p, i, j);
    }
    forall h | IsHeader(t, h) ensures ListAt(t, h) {
      MovedList(p, i, h);
    }
  }

  // ---- runs of such steps ----

  datatype Step =
    | Take(i: int, j: int)            // the lowest free chunk j of page i
    | Drop(i: int, j: int)            // chunk j of page i
    | CutUp(i: int, shift: nat)
    | Split(i: int, f: int, k: nat)   // k pages of the free run at i, the f-th of the list
    | Give(i: int, x: int)            // the block or the empty page at i
    | Move(i: int)                    // the free run at i

  ghost predicate May(p: Pool, s: Step) {
    match s
    case Take(i, j) => CanUse(p, i, j) && forall k :: 0 <= k < j ==> p.used[i][k]
    case Drop(i, j) => InUse(p, i, j)
    case CutUp(i, shift) => CanCut(p, i, shift)
    case Split(i, f, k) => CanTake(p, f, k) && p.lists[FreeHeader(p)][f] == i
    case Give(i, x) => CanGive(p, i, x)
    case Move(i) => CanMove(p, i)
  }

  ghost function Made(p: Pool, s: Step): Pool
    requires May(p, s)
  {
    match s
    case Take(i, j) => Used(p, i, j)
    case Drop(i, j) => Released(p, i, j)
    case CutUp(i, shift) => Cut(p, i, shift)
    case Split(_, f, k) => Taken(p, f, k)
    case Give(i, x) => GivenReady(p, i, x); Given(p, i, x)
    case Move(i) => Moved(p, i)
  }

  // Keeps a step folded where only its ends matter.
  ghost predicate Look(u: int) {
    true
  }

  ghost predicate Goes(p: Pool, s: Step, q: Pool) {
    forall u {:trigger Look(u)} :: Look(u) ==> May(p, s) && q == Made(p, s)
  }

  lemma GoesIf(p: Pool, s: Step)
    requires May(p, s)
    ensures Goes(p, s, Made(p, s))
  {}

  ghost predicate GoesAt(tr: seq<Pool>, steps: seq<Step>, k: int) {
    0 <= k < |steps| && k + 1 < |tr| && Goes(tr[k], steps[k], tr[k + 1])
  }

  // The steps lead from p to q by way of the pools tr.
  ghost predicate Leads(p: Pool, steps: seq<Step>, tr: seq<Pool>, q: Pool) {
    && |tr| == |steps| + 1 && tr[0] == p && tr[|steps|] == q
    && forall k {:trigger GoesAt(tr, steps, k)} :: 0 <= k < |steps| ==> GoesAt(tr, steps, k)
  }

  ghost predicate Reaches(p: Pool, q: Pool) {
    exists steps, tr :: Leads(p, steps, tr, q)
  }

  lemma ReachesSame(p: Pool)
    ensures Reaches(p, p)
  {
    assert Leads(p, [], [p], p);
  }

  lemma ReachesOne(p: Pool, s: Step)
    requires May(p, s)
    ensures Reaches(p, Made(p, s))
  {
    GoesIf(p, s);
    ReachesGoes(p, s, Made(p, s));
  }

  lemma ReachesGoes(p: Pool, s: Step, q: Pool)
    requires Goes(p, s, q)
    ensures Reaches(p, q)
  {
    assert GoesAt([p, q], [s], 0);
    assert Leads(p, [s], [p, q], q);
  }

  lemma LeadsOn(p: Pool, a: seq<Step>, ta: seq<Pool>, q: Pool, b: seq<Step>, tb: seq<Pool>, r: Pool)
    requires Leads(p, a, ta, q) && Leads(q, b, tb, r)
    ensures Leads(p, a + b, ta + tb[1..], r)
  {
    var c, tc := a + b, ta + tb[1..];
    forall k | 0 <= k < |c| ensures GoesAt(tc, c, k) {
      if k < |a| {
        assert GoesAt(ta, a, k);
        assert tc[k] == ta[k] && tc[k + 1] == ta[k + 1] && c[k] == a[k];
      } else {
        assert GoesAt(tb, b, k - |a|);
        assert tc[k] == tb[k - |a|] && tc[k + 1] == tb[k - |a| + 1] && c[k] == b[k - |a|];
      }
    }
  }

  lemma ReachesOn(p: Pool, q: Pool, r: Pool)
    requires Reaches(p, q) && Reaches(q, r)
    ensures Reaches(p, r)
  {
    var a, ta :| Leads(p, a, ta, q);
    var b, tb :| Leads(q, b, tb, r);
    LeadsOn(p, a, ta, q, b, tb, r);
  }

  lemma TakeReaches(p: Pool, i: int, j: int)
    requires CanUse(p, i, j) && forall k :: 0 <= k < j ==> p.used[i][k]
    ensures Reaches(p, Used(p, i, j))
  {
    ReachesOne(p, Take(i, j));
  }

  lemma DropReaches(p: Pool, i: int, j: int)
    requires InUse(p, i, j)
    ensures Reaches(p, Released(p, i, j))
  {
    ReachesOne(p, Drop(i, j));
  }

  lemma CutReaches(p: Pool, i: int, shift: nat)
    requires CanCut(p, i, shift)
    ensures Reaches(p, Cut(p, i, shift))
  {
    ReachesOne(p, CutUp(i, shift));
  }

  lemma SplitReaches(p: Pool, f: int, k: nat)
    requires CanTake(p, f, k)
    ensures Reaches(p, Taken(p, f, k))
  {
    ReachesOne(p, Split(p.lists[FreeHeader(p)][f], f, k));
  }

  lemma GiveReaches(p: Pool, i: int, x: int)
    requires CanGive(p, i, x)
    ensures (GivenReady(p, i, x); Reaches(p, Given(p, i, x)))
  {
    ReachesOne(p, Give(i, x));
  }

  lemma MoveReaches(p: Pool, i: int)
    requires CanMove(p, i)
    ensures Reaches(p, Moved(p, i))
  {
    ReachesOne(p, Move(i));
  }
}
