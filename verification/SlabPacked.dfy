/** The slab pool in packed form: one descriptor of 64-bit words for each page.  Each operation on the words makes of
    descriptors that stand for a pool of SlabPool descriptors that stand for what SlabSteps makes of that pool. */
module SlabPacked {
  import opened Basics
  import opened SlabPool
  import opened SlabSteps
  import opened SlabWords

  // What descriptor i stands for is page i of the pool.
  ghost predicate PacksAt(ds: seq<Desc>, p: Pool, i: int) {
    && 0 <= i < |ds| == |p.tag| == |p.word| == |p.used|
    && ds[i].Kind() == p.tag[i] && WordOf(ds[i]) == p.word[i]
    && (p.word[i].Layout? ==> Sound(ds[i]) && Tied(ds[i]) && UsedOf(ds[i]) == p.used[i])
  }

  ghost predicate Packs(ds: seq<Desc>, p: Pool) {
    |ds| == p.n && forall i {:trigger PacksAt(ds, p, i)} :: 0 <= i < p.n ==> PacksAt(ds, p, i)
  }

  // The descriptor of one page is written.
  lemma Rewritten(ds: seq<Desc>, p: Pool, i: int, d: Desc, q: Pool)
    requires Packs(ds, p) && 0 <= i < p.n == q.n == |p.tag| == |p.word| == |p.used| == |q.tag| == |q.word| == |q.used|
    requires q.tag == p.tag[i := q.tag[i]] && q.word == p.word[i := q.word[i]] && q.used == p.used[i := q.used[i]]
    requires d.Kind() == q.tag[i] && WordOf(d) == q.word[i]
    requires q.word[i].Layout? ==> Sound(d) && Tied(d) && UsedOf(d) == q.used[i]
    ensures Packs(ds[i := d], q)
  {
    var es := ds[i := d];
    forall k | 0 <= k < q.n ensures PacksAt(es, q, k) {
      assert PacksAt(ds, p, k);
    }
  }

  // ngx_slab_alloc_locked on a page with a free chunk: the lowest one is taken.
  method TakeFrom(ds: seq<Desc>, i: nat, ghost p: Pool) returns (j: nat, next: seq<Desc>)
    requires Packs(ds, p) && Inv(p, -1) && i < p.n && p.word[i].Layout? && MIN_SHIFT <= p.word[i].shift < PAGE_SHIFT
    requires i in p.lists[SlotHeader(p, p.word[i].shift)] && HasFree(p.used[i])
    ensures CanUse(p, i, j) && Lowest(p.used[i], j) && Packs(next, Used(p, i, j))
  {
    assert PacksAt(ds, p, i);
    var d, full;
    j, d, full := TakeChunk(ds[i]);
    next := ds[i := d];
    Rewritten(ds, p, i, d, Used(p, i, j));
  }

  // ngx_slab_free_locked on a chunk of a page: whether it was in use, and whether the page has none left.
  method DropFrom(ds: seq<Desc>, i: nat, j: nat, first: U64, header: U64, ghost p: Pool)
      returns (inUse: bool, next: seq<Desc>, emptied: bool)
    requires Packs(ds, p) && Inv(p, -1) && i < p.n && p.word[i].Layout? && MIN_SHIFT <= p.word[i].shift < PAGE_SHIFT
    requires j < |p.used[i]| && first != Zero() && !header[0] && !header[1]
    ensures inUse <==> InUse(p, i, j)
    ensures if !inUse then next == ds
            else Packs(next, Released(p, i, j)) &&
                 (emptied <==> !HasLive(Released(p, i, j).used[i], Reserved(p.word[i].shift)))
  {
    assert PacksAt(ds, p, i);
    var d;
    inUse, d, emptied := DropChunk(ds[i], j, first, header);
    next := ds;
    if inUse {
      next := ds[i := d];
      Rewritten(ds, p, i, d, Released(p, i, j));
    }
  }

  // ngx_slab_alloc_locked on a page it has just got
  method CutAt(ds: seq<Desc>, i: nat, shift: nat, header: U64, ghost p: Pool) returns (next: seq<Desc>)
    requires Packs(ds, p) && CanCut(p, i, shift) && !header[0] && !header[1] && header != Zero()
    ensures Packs(next, Cut(p, i, shift))
  {
    var d := NewPage(shift, header);
    next := ds[i := d];
    assert UsedOf(d) == FreshBitmap(shift);
    Rewritten(ds, p, i, d, Cut(p, i, shift));
  }

  // The rest of a block
  method Fill(ds: seq<Desc>, from: nat, to: nat) returns (next: seq<Desc>)
    requires from <= to <= |ds|
    ensures |next| == |ds|
    ensures forall j :: 0 <= j < |ds| ==> next[j] == if from <= j < to then BusyPage(ds[j]) else ds[j]
  {
    next := ds;
    for m := from to to
      invariant |next| == |ds|
      invariant forall j :: 0 <= j < |ds| ==> next[j] == if from <= j < m then BusyPage(ds[j]) else ds[j]
    {
      next := next[m := BusyPage(next[m])];
    }
  }

  // What becomes of descriptor j when k pages are taken from the run of l pages at i
  ghost predicate TakenDesc(ds: seq<Desc>, i: int, k: nat, l: nat, next: seq<Desc>, j: nat) {
    && j < |next| == |ds|
    && (j == i ==> next[j].Kind() == PageTag && WordOf(next[j]) == Started(k))
    && (i < j < i + k ==> next[j].Kind() == PageTag && WordOf(next[j]) == PageBusy)
    && (j == i + k && k < l ==> next[j].Kind() == PageTag && WordOf(next[j]) == Count(l - k))
    && (!(i <= j < i + k) && !(j == i + k && k < l) ==> next[j] == ds[j])
  }

  // ngx_slab_alloc_pages on the run at i, which is long enough
  method WriteBlock(ds: seq<Desc>, i: nat, pages: U64, ghost l: nat) returns (next: seq<Desc>)
    requires 0 < Value(pages) < Pow2(63) - 1 && Value(pages) <= l && i + l <= |ds|
    requires ds[i].Kind() == PageTag && WordOf(ds[i]) == Count(l)
    ensures |next| == |ds| && forall j :: 0 <= j < |ds| ==> TakenDesc(ds, i, Value(pages), l, next, j)
  {
    var fits, more, head := TakeRun(ds[i], pages);
    var k := Value(pages);
    next := Fill(ds[i := head], i + 1, i + k);
    if more {
      next := next[i + k := RestPage(ds[i], pages, ds[i + k])];
    }
    forall j | 0 <= j < |ds| ensures TakenDesc(ds, i, k, l, next, j) {
      assert i < j < i + k ==> next[j] == BusyPage(ds[j]);
    }
  }

  method TakePages(ds: seq<Desc>, i: nat, pages: U64, ghost p: Pool, ghost f: nat) returns (next: seq<Desc>)
    requires Packs(ds, p) && p.n < Pow2(63) - 1 && CanTake(p, f, Value(pages)) && p.lists[FreeHeader(p)][f] == i
    ensures Packs(next, Taken(p, f, Value(pages)))
  {
    RunFacts(p, f, i, p.word[i].n);
    assert PacksAt(ds, p, i);
    next := WriteBlock(ds, i, pages, p.word[i].n);
    TakenPacks(ds, p, f, Value(pages), next);
  }

  lemma TakenPacks(ds: seq<Desc>, p: Pool, f: nat, k: nat, next: seq<Desc>)
    requires Packs(ds, p) && CanTake(p, f, k) && |next| == |ds|
    requires var i := p.lists[FreeHeader(p)][f]; var l := p.word[i].n;
      forall j :: 0 <= j < |ds| ==> TakenDesc(ds, i, k, l, next, j)
    ensures Packs(next, Taken(p, f, k))
  {
    var i, q := p.lists[FreeHeader(p)][f], Taken(p, f, k);
    RunFacts(p, f, i, p.word[i].n);
    forall j | 0 <= j < p.n ensures PacksAt(next, q, j) {
      assert TakenDesc(ds, i, k, p.word[i].n, next, j);
      assert PacksAt(ds, p, j) && PacksAt(ds, p, i);
    }
  }

  // What becomes of descriptor j when the k pages at i become a free run
  ghost predicate GivenDesc(ds: seq<Desc>, i: int, k: nat, next: seq<Desc>, j: nat) {
    && j < |next| == |ds|
    && (j == i ==> next[j].Kind() == PageTag && WordOf(next[j]) == Count(k))
    && (i < j < i + k ==> next[j].Kind() == PageTag && WordOf(next[j]) == Count(0))
    && (!(i <= j < i + k) ==> next[j] == ds[j])
  }

  // ngx_slab_free_pages
  method WriteFree(ds: seq<Desc>, i: nat, pages: U64, first: U64, header: U64) returns (next: seq<Desc>)
    requires 0 < Value(pages) < Pow2(63) && i + Value(pages) <= |ds| && !header[0] && !header[1]
    ensures |next| == |ds| && forall j :: 0 <= j < |ds| ==> GivenDesc(ds, i, Value(pages), next, j)
  {
    var d, k := SetPrev(ds[i].(slab := pages, next := first), header, PageTag), Value(pages);
    OfNatValue(pages);
    LengthWord(d, k);
    next := ds[i := d];
    for m := i + 1 to i + k
      invariant |next| == |ds| && next[i] == d
      invariant forall j :: 0 <= j < |ds| && j != i ==> next[j] == if i < j < m then FreePage(ds[j]) else ds[j]
    {
      next := next[m := FreePage(next[m])];
    }
  }

  // of a block, or of a page cut up whose chunks are all back
  method GivePages(ds: seq<Desc>, i: nat, pages: U64, first: U64, header: U64, ghost p: Pool, ghost x: int)
      returns (next: seq<Desc>)
    requires Packs(ds, p) && p.n < Pow2(63) && CanGive(p, i, x) && Value(pages) == Len(p.word[i])
    requires !header[0] && !header[1]
    ensures (GivenReady(p, i, x); Packs(next, Given(p, i, x)))
  {
    GiveFacts(p, i, x);
    next := WriteFree(ds, i, pages, first, header);
    GivenReady(p, i, x);
    ghost var q := Given(p, i, x);
    forall j | 0 <= j < p.n ensures PacksAt(next, q, j) {
      assert GivenDesc(ds, i, Value(pages), next, j);
      assert PacksAt(ds, p, j);
    }
  }

  // of a run that is free already
  method MovePages(ds: seq<Desc>, i: nat, pages: U64, first: U64, header: U64, ghost p: Pool)
      returns (next: seq<Desc>)
    requires Packs(ds, p) && p.n < Pow2(63) && CanMove(p, i) && Value(pages) == p.word[i].n
    requires !header[0] && !header[1]
    ensures Packs(next, Moved(p, i))
  {
    assert PartAt(p, i);
    next := WriteFree(ds, i, pages, first, header);
    ghost var q := Moved(p, i);
    forall j | 0 <= j < p.n ensures PacksAt(next, q, j) {
      assert GivenDesc(ds, i, Value(pages), next, j);
      assert PacksAt(ds, p, j) && PartAt(p, j);
    }
  }

  // The words written to the links: the first page of a list and its header
  datatype Ends = Ends(first: U64, header: U64)

  ghost predicate Pointers(e: Ends) {
    e.first != Zero() && e.header != Zero() && !e.header[0] && !e.header[1]
  }

  // Any step, on the words.  The length of a run is read from them.
  method Perform(ds: seq<Desc>, s: Step, e: Ends, ghost p: Pool) returns (next: seq<Desc>)
    requires Packs(ds, p) && p.n < Pow2(63) - 1 && May(p, s) && Pointers(e)
    ensures Packs(next, Made(p, s))
  {
    match s
    case Take(i, j) =>
      next := PerformTake(ds, i, j, p);
    case Drop(i, j) =>
      var inUse, emptied;
      inUse, next, emptied := DropFrom(ds, i, j, e.first, e.header, p);
    case CutUp(i, shift) =>
      next := CutAt(ds, i, shift, e.header, p);
    case Split(i, f, k) =>
      next := PerformSplit(ds, i, k, p, f);
    case Give(i, x) =>
      next := PerformGive(ds, i, e, p, x);
    case Move(i) =>
      next := PerformMove(ds, i, e, p);
  }

  method PerformTake(ds: seq<Desc>, i: nat, j: int, ghost p: Pool) returns (next: seq<Desc>)
    requires Packs(ds, p) && May(p, Take(i, j))
    ensures Packs(next, Used(p, i, j))
  {
    var k;
    k, next := TakeFrom(ds, i, p);
    assert k == j;
  }

  method PerformSplit(ds: seq<Desc>, i: nat, k: nat, ghost p: Pool, ghost f: int) returns (next: seq<Desc>)
    requires Packs(ds, p) && p.n < Pow2(63) - 1 && CanTake(p, f, k) && p.lists[FreeHeader(p)][f] == i
    ensures Packs(next, Taken(p, f, k))
  {
    RunFacts(p, f, i, p.word[i].n);
    ValueOf(k);
    next := TakePages(ds, i, OfNat(k, 64), p, f);
  }

  lemma ValueOf(k: nat)
    requires k < Pow2(63)
    ensures Value(OfNat(k, 64)) == k
  {
    ValueOfNat(k, 64);
  }

  method PerformGive(ds: seq<Desc>, i: nat, e: Ends, ghost p: Pool, ghost x: int) returns (next: seq<Desc>)
    requires Packs(ds, p) && p.n < Pow2(63) - 1 && CanGive(p, i, x) && Pointers(e)
    ensures (GivenReady(p, i, x); Packs(next, Given(p, i, x)))
  {
    assert PacksAt(ds, p, i);
    GiveFacts(p, i, x);
    var pages := if ds[i].Kind() == PageTag then And(ds[i].slab, Not(Start())) else OfNat(1, 64);
    if ds[i].Kind() == PageTag {
      RunWord(ds[i]);
    } else {
      ValueOf(1);
    }
    next := GivePages(ds, i, pages, e.first, e.header, p, x);
  }

  method PerformMove(ds: seq<Desc>, i: nat, e: Ends, ghost p: Pool) returns (next: seq<Desc>)
    requires Packs(ds, p) && p.n < Pow2(63) - 1 && CanMove(p, i) && Pointers(e)
    ensures Packs(next, Moved(p, i))
  {
    assert PacksAt(ds, p, i);
    RunWord(ds[i]);
    next := MovePages(ds, i, And(ds[i].slab, Not(Start())), e.first, e.header, p);
  }

  method Follow(ds: seq<Desc>, s: Step, e: Ends, ghost p: Pool, ghost q: Pool) returns (next: seq<Desc>)
    requires Packs(ds, p) && p.n < Pow2(63) - 1 && Goes(p, s, q) && Pointers(e)
    ensures Packs(next, q) && q.n == p.n
  {
    assert Look(0);
    SameSize(p, s);
    next := Perform(ds, s, e, p);
  }

  lemma SameSize(p: Pool, s: Step)
    requires May(p, s)
    ensures Made(p, s).n == p.n
  {
    if s.Give? {
      GivenReady(p, s.i, s.x);
    }
  }

  // Over any run of steps the words stand for the pool that the steps lead to.
  method PerformAll(ds: seq<Desc>, steps: seq<Step>, ends: seq<Ends>, ghost p: Pool, ghost tr: seq<Pool>, ghost q: Pool)
      returns (next: seq<Desc>)
    requires Packs(ds, p) && p.n < Pow2(63) - 1 && Leads(p, steps, tr, q) && |ends| == |steps|
    requires forall k :: 0 <= k < |ends| ==> Pointers(ends[k])
    ensures Packs(next, q)
  {
    next := ds;
    for k := 0 to |steps|
      invariant Packs(next, tr[k]) && tr[k].n == p.n
    {
      assert GoesAt(tr, steps, k);
      next := Follow(next, steps[k], ends[k], tr[k], tr[k + 1]);
    }
  }
}
