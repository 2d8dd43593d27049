/** The operations of nginx/src/core/ngx_slab.c.  Addresses are integers; page descriptors are
    named by their index, slot headers and the free header by the indices after the last page. */
module Slab {
  import opened Basics
  import opened SlabLists
  import opened SlabPool
  import opened SlabSteps

  // The bitmap scan of a small page, word by word: the lowest free chunk, and whether it was the last one.
  method ScanSmall(u: seq<bool>) returns (j: nat, full: bool)
    requires |u| % 64 == 0 && HasFree(u)
    ensures j < |u| && !u[j] && (forall k :: 0 <= k < j ==> u[k])
    ensures full <==> !HasFree(u[j := true])
  {
    var n, map_ := 0, |u| / 64;
    while true
      invariant 0 <= n <= map_ && forall k :: 0 <= k < n * 64 ==> u[k]
      decreases map_ - n
    {
      assert n < map_ by {
        var w :| 0 <= w < |u| && !u[w];
        assert w >= n * 64;
      }
      var busy := WordBusy(u, n);
      if !busy {
        break;
      }
      n := n + 1;
    }
    var i := 0;
    while u[n * 64 + i]
      invariant 0 <= i < 64 && (exists k :: n * 64 + i <= k < n * 64 + 64 && !u[k])
      invariant forall k :: n * 64 <= k < n * 64 + i ==> u[k]
      decreases 64 - i
    {
      i := i + 1;
    }
    j := n * 64 + i;
    ghost var u' := u[j := true];
    var busy := WordBusy(u[j := true], n);
    if !busy {
      return j, false;
    }
    n := n + 1;
    while n < map_
      invariant 0 <= n <= map_ && forall k :: 0 <= k < n * 64 ==> u'[k]
    {
      busy := WordBusy(u[j := true], n);
      if !busy {
        return j, false;
      }
      n := n + 1;
    }
    full := true;
  }

  // bitmap[n] == NGX_SLAB_BUSY
  method WordBusy(u: seq<bool>, n: nat) returns (busy: bool)
    requires (n + 1) * 64 <= |u|
    ensures busy <==> forall k :: n * 64 <= k < n * 64 + 64 ==> u[k]
    ensures !busy ==> HasFree(u) && exists k :: n * 64 <= k < n * 64 + 64 && !u[k]
  {
    var k := 0;
    while k < 64
      invariant 0 <= k <= 64 && forall m :: n * 64 <= m < n * 64 + k ==> u[m]
    {
      if !u[n * 64 + k] {
        return false;
      }
      k := k + 1;
    }
    busy := true;
  }

  // The one-word scan of an exact or big page.
  method ScanMap(u: seq<bool>) returns (j: nat, full: bool)
    requires HasFree(u)
    ensures j < |u| && !u[j] && (forall k :: 0 <= k < j ==> u[k])
    ensures full <==> !HasFree(u[j := true])
  {
    j := 0;
    while u[j]
      invariant j < |u| && (forall k :: 0 <= k < j ==> u[k]) && exists k :: j <= k < |u| && !u[k]
      decreases |u| - j
    {
      j := j + 1;
    }
    ghost var u' := u[j := true];
    var m := j + 1;
    while m < |u|
      invariant j < m <= |u| && forall k :: 0 <= k < m ==> u'[k]
    {
      if !u[m] {
        assert !u'[m];
        return j, false;
      }
      m := m + 1;
    }
    full := true;
  }

  // for (s = size - 1; s >>= 1; shift++): the smallest power of two that holds size bytes
  method ShiftFor(size: nat) returns (shift: nat)
    requires 8 < size < MAX_SIZE
    ensures MIN_SHIFT < shift < PAGE_SHIFT && SizeOf(shift - 1) < size <= SizeOf(shift)
  {
    shift := 1;
    var s := (size - 1) / 2;
    assert Shr(size - 1, 1) == Shr(size - 1, 0) / 2;
    while s != 0
      invariant 1 <= shift && s == Shr(size - 1, shift)
      invariant shift > 1 ==> Shr(size - 1, shift - 1) != 0
      decreases s
    {
      s, shift := s / 2, shift + 1;
    }
    ShrZero(size - 1, shift);
    ShrZero(size - 1, shift - 1);
    PowerTable(shift);
    PowerTable(shift - 1);
  }

  // x >> k
  ghost function Shr(x: nat, k: nat): nat {
    if k == 0 then x else Shr(x, k - 1) / 2
  }

  lemma {:induction false} ShrZero(x: nat, k: nat)
    ensures Shr(x, k) == 0 <==> x < Pow2(k)
  {
    ShrWithin(x, k);
    var s, m := Shr(x, k), Pow2(k);
    if s > 0 { AtLeastOnce(s, m); }
  }

  lemma AtLeastOnce(s: nat, m: nat)
    requires s > 0
    ensures m <= s * m
  {
    assert s * m == (s - 1) * m + m;
  }

  lemma {:induction false} ShrWithin(x: nat, k: nat)
    ensures Shr(x, k) * Pow2(k) <= x < Shr(x, k) * Pow2(k) + Pow2(k)
  {
    if k > 0 {
      ShrWithin(x, k - 1);
      HalfStep(Shr(x, k - 1), Pow2(k - 1), x);
    }
  }

  lemma HalfStep(s: nat, m: nat, x: nat)
    requires s * m <= x < s * m + m
    ensures (s / 2) * (2 * m) <= x < (s / 2) * (2 * m) + 2 * m
  {
    var h := s / 2;
    assert s == 2 * h || s == 2 * h + 1;
    assert h * (2 * m) == (2 * h) * m;
    if s == 2 * h + 1 { assert s * m == (2 * h) * m + m; }
  }

  lemma PowerTable(k: nat)
    ensures k <= 2 ==> Pow2(k) <= 4
    ensures MIN_SHIFT <= k < PAGE_SHIFT ==> Pow2(k) == SizeOf(k)
    ensures k >= PAGE_SHIFT ==> Pow2(k) >= 4096
  {
    assert Pow2(1) == 2 && Pow2(2) == 4 && Pow2(3) == 8 && Pow2(4) == 16 && Pow2(5) == 32 && Pow2(6) == 64;
    assert Pow2(7) == 128 && Pow2(8) == 256 && Pow2(9) == 512 && Pow2(10) == 1024 && Pow2(11) == 2048;
    if k > PAGE_SHIFT { PowerTable(k - 1); }
  }

  ghost predicate TooShort(p: Pool, i: int, pages: nat) {
    0 <= i < |p.word| && p.word[i].Count? && p.word[i].n < pages
  }

  // Exactly the block b has become live.
  ghost predicate Added(p: Pool, t: Pool, b: Block) {
    !Live(p, b) && forall c :: Live(t, c) <==> Live(p, c) || c == b
  }

  // Whole pages for half a page or more, and else a chunk of the least size that is enough
  ghost predicate Snug(b: Block, size: nat) {
    && size <= Size(b)
    && if size >= MAX_SIZE then b.Run? && b.pages == (size + PAGE_SIZE - 1) / PAGE_SIZE
       else b.Chunk? && (b.shift == MIN_SHIFT || (b.shift > MIN_SHIFT && SizeOf(b.shift - 1) < size))
  }

  // No free run and no free chunk can serve the request.
  ghost predicate NoRoom(p: Pool, size: nat) {
    if size >= MAX_SIZE then forall i :: 0 <= i < |p.word| && p.word[i].Count? ==> p.word[i].n * PAGE_SIZE < size
    else
      && (forall i :: 0 <= i < |p.word| && p.word[i].Count? ==> p.word[i].n == 0)
      && (forall i :: 0 <= i < |p.word| && i < |p.used| && p.word[i].Layout? && HasFree(p.used[i]) ==>
            SizeOf(p.word[i].shift) < size || (p.word[i].shift > MIN_SHIFT && size <= SizeOf(p.word[i].shift - 1)))
  }

  lemma SizeMono(a: nat, b: nat)
    requires MIN_SHIFT <= a <= b < PAGE_SHIFT
    ensures SizeOf(a) <= SizeOf(b)
  {
  }

  // An empty slot list means no page of that chunk size has a free chunk.
  lemma EmptySlot(p: Pool, shift: nat, size: nat)
    requires Inv(p, -1) && MIN_SHIFT <= shift < PAGE_SHIFT && p.lists[SlotHeader(p, shift)] == [] && size < MAX_SIZE
    requires size <= SizeOf(shift) && (shift > MIN_SHIFT ==> SizeOf(shift - 1) < size)
    requires forall i :: 0 <= i < |p.word| && p.word[i].Count? ==> p.word[i].n < 1
    ensures NoRoom(p, size)
  {
    assert ListAt(p, SlotHeader(p, shift));
    forall i | 0 <= i < |p.word| && p.word[i].Layout? && HasFree(p.used[i])
      ensures SizeOf(p.word[i].shift) < size || (p.word[i].shift > MIN_SHIFT && size <= SizeOf(p.word[i].shift - 1))
    {
      assert PartAt(p, i);
      assert i !in p.lists[SlotHeader(p, shift)];
      var s := p.word[i].shift;
      if s < shift { SizeMono(s, shift - 1); } else { SizeMono(shift, s - 1); }
    }
  }

  // The free runs before the f-th are too short.
  ghost predicate FirstFit(p: Pool, f: int, pages: nat) {
    FreeHeader(p) in p.lists && forall k :: 0 <= k < f && k < |p.lists[FreeHeader(p)]| ==>
      TooShort(p, p.lists[FreeHeader(p)][k], pages)
  }

  // Behind: the descriptor is read behind the last one.
  datatype Outcome = Freed | Behind | OutsidePool | WrongChunk | ChunkAlreadyFree | PageAlreadyFree | WrongPage

  // The first address of a free run of pages still carries the length of the run,
  ghost predicate AtFreeRun(p: Pool, off: int) {
    var page := off / PAGE_SIZE;
    0 <= page < |p.word| && off % PAGE_SIZE == 0 && p.word[page].Count? && p.word[page].n > 0
  }

  // and the chunks a small page reserves for its bitmap are marked in use; the source tells neither from a live block.
  ghost predicate AtBitmap(p: Pool, off: int) {
    var page, rest := off / PAGE_SIZE, off % PAGE_SIZE;
    0 <= page < |p.word| && p.word[page].Layout? &&
      var s := p.word[page].shift; rest % SizeOf(s) == 0 && rest < Reserved(s) * SizeOf(s)
  }

  // The test by which ngx_slab_free_locked decides to free the memory at offset off.
  ghost predicate Accepts(p: Pool, off: int) {
    var page, rest := off / PAGE_SIZE, off % PAGE_SIZE;
    && 0 <= page < |p.word| && page < |p.used|
    && match p.word[page]
       case Count(k) => rest == 0 && k != 0
       case Started(_) => rest == 0
       case PageBusy => false
       case Layout(s) => rest % SizeOf(s) == 0 && rest / SizeOf(s) < |p.used[page]| && p.used[page][rest / SizeOf(s)]
  }

  ghost predicate Removed(p: Pool, t: Pool, b: Block) {
    forall c :: Live(t, c) <==> Live(p, c) && c != b
  }

  // Distance of a block from the start of its page.
  function Offset(b: Block): int {
    match b
    case Chunk(_, s, j) => j * SizeOf(s)
    case Run(_, _) => 0
  }

  lemma AddressParts(p: Pool, b: Block)
    requires Inv(p, -1) && Live(p, b)
    ensures Address(b) / PAGE_SIZE == b.page && Address(b) % PAGE_SIZE == Offset(b)
  {
    assert PartAt(p, b.page) && UsedAt(p, b.page, -1);
    if b.Chunk? { ChunkFits(b.shift, b.index); }
  }

  lemma ChunkIndex(s: nat, j: int)
    requires MIN_SHIFT <= s < PAGE_SHIFT
    ensures (j * SizeOf(s)) % SizeOf(s) == 0 && j * SizeOf(s) / SizeOf(s) == j
  {
    if s == 3 { assert (j * 8) % 8 == 0 && j * 8 / 8 == j; }
    else if s == 4 { assert (j * 16) % 16 == 0 && j * 16 / 16 == j; }
    else if s == 5 { assert (j * 32) % 32 == 0 && j * 32 / 32 == j; }
    else if s == 6 { assert (j * 64) % 64 == 0 && j * 64 / 64 == j; }
    else if s == 7 { assert (j * 128) % 128 == 0 && j * 128 / 128 == j; }
    else if s == 8 { assert (j * 256) % 256 == 0 && j * 256 / 256 == j; }
    else if s == 9 { assert (j * 512) % 512 == 0 && j * 512 / 512 == j; }
    else if s == 10 { assert (j * 1024) % 1024 == 0 && j * 1024 / 1024 == j; }
    else { assert (j * 2048) % 2048 == 0 && j * 2048 / 2048 == j; }
  }

  lemma IndexInRange(s: nat, rest: int)
    requires MIN_SHIFT <= s < PAGE_SHIFT && 0 <= rest < PAGE_SIZE && rest % SizeOf(s) == 0
    ensures 0 <= rest / SizeOf(s) < Chunks(s) && rest / SizeOf(s) * SizeOf(s) == rest
    ensures rest >= Reserved(s) * SizeOf(s) <==> rest / SizeOf(s) >= Reserved(s)
  {
    if s == 3 { assert SizeOf(s) == 8; } else if s == 4 { assert SizeOf(s) == 16; }
      else if s == 5 { assert SizeOf(s) == 32; }
    else if s == 6 { assert SizeOf(s) == 64; } else if s == 7 { assert SizeOf(s) == 128; }
      else if s == 8 { assert SizeOf(s) == 256; }
    else if s == 9 { assert SizeOf(s) == 512; } else if s == 10 { assert SizeOf(s) == 1024; }
      else { assert SizeOf(s) == 2048; }
  }

  const POOL_SIZE: nat := 200   // sizeof(ngx_slab_pool_t); any value will do
  const DESCRIPTOR: nat := 24   // sizeof(ngx_slab_page_t)

  // The first page boundary after the page descriptors.
  function StartFor(pool: nat, end: nat): nat {
    var p := pool + POOL_SIZE;
    var pages := (if end > p then end - p else 0) / (PAGE_SIZE + DESCRIPTOR);
    (p + SLOTS * DESCRIPTOR + pages * DESCRIPTOR + PAGE_SIZE - 1) / PAGE_SIZE * PAGE_SIZE
  }

  // The estimate of the page count, lowered when the pages would not fit after all.
  function PagesFor(pool: nat, end: nat): nat {
    var p := pool + POOL_SIZE;
    var pages := (if end > p then end - p else 0) / (PAGE_SIZE + DESCRIPTOR);
    var room := (if end > StartFor(pool, end) then end - StartFor(pool, end) else 0) / PAGE_SIZE;
    if pages > room then room else pages
  }

  function Range(lo: int, hi: int): (r: set<int>)
    ensures forall x :: x in r <==> lo <= x < hi
    decreases hi - lo
  {
    if lo >= hi then {} else {lo} + Range(lo + 1, hi)
  }

  ghost predicate Initial(p: Pool) {
    && 0 < p.n && |p.tag| == |p.word| == |p.used| == |p.head| == p.n
    && (forall i :: 0 <= i < p.n ==> p.tag[i] == PageTag && p.head[i] == 0 && p.word[i] == if i == 0 then Count(p.n)
       else Count(0))
    && (forall i :: i in p.cell <==> 0 <= i <= p.n + SLOTS) && (forall h :: h in p.lists <==> p.n <= h <= p.n + SLOTS)
    && p.cell[0] == Cell(p.n + SLOTS, p.n + SLOTS) && (forall i :: 0 < i < p.n ==> p.cell[i] == NONE)
    && (forall h :: p.n <= h < p.n + SLOTS ==> p.cell[h].next == h && p.lists[h] == [])
    && p.cell[p.n + SLOTS].next == 0 && p.lists[p.n + SLOTS] == [0]
  }

  lemma InitInv(p: Pool)
    requires Initial(p)
    ensures Inv(p, -1) && forall b :: !Live(p, b)
  {
    forall h | IsHeader(p, h) ensures ListAt(p, h) {
      if h == FreeHeader(p) { assert LinkAt(p.cell, h, [0], 0); }
      assert IsList(p.cell, h, p.lists[h]);
    }
    forall i | 0 <= i < p.n ensures PartAt(p, i) && NextAt(p, i) && UsedAt(p, i, -1) {}
  }

  lemma FreshReady(p: Pool, f: int, page: int, shift: nat)
    requires CanTake(p, f, 1) && p.lists[FreeHeader(p)][f] == page && Inv(Taken(p, f, 1), -1)
    requires MIN_SHIFT <= shift < PAGE_SHIFT && p.lists[SlotHeader(p, shift)] == []
    ensures CanCut(Taken(p, f, 1), page, shift) && page != NULL
  {
    RunFacts(p, f, page, p.word[page].n);
  }

  lemma FreshReaches(p: Pool, f: int, page: int, shift: nat)
    requires CanTake(p, f, 1) && CanCut(Taken(p, f, 1), page, shift)
    ensures Reaches(p, Cut(Taken(p, f, 1), page, shift))
  {
    SplitReaches(p, f, 1);
    CutReaches(Taken(p, f, 1), page, shift);
    ReachesOn(p, Taken(p, f, 1), Cut(Taken(p, f, 1), page, shift));
  }

  // A page taken and cut up is one new block.
  lemma FreshAdded(p: Pool, f: int, page: int, shift: nat)
    requires CanTake(p, f, 1) && p.lists[FreeHeader(p)][f] == page && CanCut(Taken(p, f, 1), page, shift)
    ensures Added(p, Cut(Taken(p, f, 1), page, shift), Chunk(page, shift, Reserved(shift)))
  {
    var t, b := Taken(p, f, 1), Chunk(page, shift, Reserved(shift));
    forall c ensures Live(Cut(t, page, shift), c) <==> Live(p, c) || c == b {
      TakenLive(p, f, 1, c);
      CutLive(t, page, shift, c);
    }
    assert p.word[page].Count?;
  }

  class Pages {
    const n: nat          // pages in the pool
    const start: nat      // address of the first page
    var cell: map<int, Cell>
    var tag: seq<Tag>
    var word: seq<Word>
    var used: seq<seq<bool>>
    ghost var head: seq<int>
    ghost var lists: map<int, seq<int>>

    ghost function View(): Pool
      reads this
    {
      Pool(n, cell, tag, word, used, head, lists)
    }

    ghost predicate Valid()
      reads this
    {
      0 < start && start % PAGE_SIZE == 0 && Inv(View(), -1)
    }

    // ngx_slab_init for a pool structure at address pool and shared memory up to end: one free run of all the pages
    // that fit after the slot headers and the page descriptors.
    constructor (pool: nat, end: nat)
      requires 0 < PagesFor(pool, end) && StartFor(pool, end) <= end
      ensures Valid() && n == PagesFor(pool, end) && start == StartFor(pool, end) && start + n * PAGE_SIZE <= end
      ensures word != [] && word[0] == Count(n) && forall b :: !Live(View(), b)
    {
      n, start := PagesFor(pool, end), StartFor(pool, end);
      var k := PagesFor(pool, end);
      var ids, headers := Range(0, k + SLOTS + 1), Range(k, k + SLOTS + 1);
      cell := map i | i in ids :: if i == 0 then Cell(k + SLOTS, k + SLOTS) else if i < k then NONE
        else Cell(if i == k + SLOTS then 0 else i, 0);
      tag, used := seq(k, i => PageTag), seq(k, i => []);
      word := seq(k, i => if i == 0 then Count(k) else Count(0));
      head := seq(k, i => 0);
      lists := map h | h in headers :: if h == k + SLOTS then [0] else [];
      new;
      InitInv(View());
    }

    // ngx_slab_alloc_pages: first fit in the list of free runs
    method AllocPages(pages: nat) returns (page: int, ghost f: int)
      requires Valid() && 0 < pages
      modifies this
      ensures Valid()
      ensures page == NULL ==> View() == old(View()) && forall i :: 0 <= i < n && word[i].Count? ==> word[i].n < pages
      ensures page != NULL ==>
        CanTake(old(View()), f, pages) && page == old(lists)[n + SLOTS][f] && View() == Taken(old(View()), f, pages)
      ensures page != NULL ==> FirstFit(old(View()), f, pages)
    {
      ghost var p := View();
      var header := n + SLOTS;
      ghost var q := lists[header];
      assert ListAt(p, header);
      f := 0;
      page := cell[header].next;
      while page != header
        invariant 0 <= f <= |q| && page == Nth(header, q, f)
        invariant FirstFit(p, f, pages)
        decreases |q| - f
      {
        assert page in p.lists[header];
        assert PartAt(p, page);
        if word[page].n >= pages {
          RunFacts(p, f, page, word[page].n);
          TakePages(page, pages, f);
          return;
        }
        assert LinkAt(cell, header, q, f);
        page := cell[page].next;
        f := f + 1;
      }
      assert f < |q| ==> LinkAt(cell, header, q, f);
      forall i | 0 <= i < n && word[i].Count? ensures word[i].n < pages {
        if word[i].n > 0 { assert i in p.lists[header]; }
      }
      page := NULL;
    }

    // The head of a run long enough leaves the free list, or its remainder takes its place there.
    method TakePages(page: int, pages: nat, ghost f: int)
      requires Valid() && CanTake(View(), f, pages) && lists[n + SLOTS][f] == page && 0 <= page < n && word[page].Count?
      modifies this
      ensures View() == Taken(old(View()), f, pages) && Valid()
    {
      ghost var p := View();
      TakenInv(p, f, pages);
      ghost var t := Taken(p, f, pages);
      RunFacts(p, f, page, word[page].n);
      Detach(page, pages);
      MarkBlock(page, pages);
      head, lists := t.head, t.lists;
      assert word == t.word;
    }

    // The rest of the run, if any, takes its place in the free list.
    method Detach(page: int, pages: nat)
      requires 0 <= page && |word| == n && page < n && word[page].Count? && page + word[page].n <= n && page in cell &&
        0 < pages <= word[page].n
      requires cell[page].prev in cell && cell[page].next in cell && (word[page].n > pages ==> page + pages in cell)
      modifies `cell, `word
      ensures word == if old(word)[page].n > pages then old(word)[page + pages := Count(old(word)[page].n - pages)]
        else old(word)
      ensures cell == if old(word)[page].n > pages then Replace(old(cell), page, page + pages)
        else Unlink(old(cell), page)
    {
      var l := word[page].n;
      if l > pages {
        word := word[page + pages := Count(l - pages)];
        cell := Replace(cell, page, page + pages);
      } else {
        cell := Unlink(cell, page);
      }
    }

    // The descriptors of an allocated block.
    method MarkBlock(page: int, pages: nat)
      requires 0 <= page && 0 < pages && page + pages <= n && |word| == n && forall j :: 0 <= j < n ==> j in cell
      modifies `cell, `word
      ensures |word| == n && forall j :: 0 <= j < n ==> word[j] == if j == page then Started(pages)
        else if page < j < page + pages then PageBusy else old(word)[j]
      ensures cell == Cleared(old(cell), page, pages)
    {
      word := word[page := Started(pages)];
      cell := cell[page := NONE];
      var k := 1;
      while k < pages
        invariant 1 <= k <= pages && |word| == n
        invariant forall j :: 0 <= j < n ==> word[j] == if j == page then Started(pages)
          else if page < j < page + k then PageBusy else old(word)[j]
        invariant cell == Cleared(old(cell), page, k)
      {
        word := word[page + k := PageBusy];
        cell := cell[page + k := NONE];
        k := k + 1;
      }
    }

    // ngx_slab_free_pages: exactly the block of the run stops being live; a run that was free already only moves to the
    // front of the free list.
    method FreePages(page: int, pages: nat, ghost x: int)
      requires 0 < start && start % PAGE_SIZE == 0 && (CanGive(View(), page, x) || CanMove(View(), page)) &&
        pages == Len(word[page])
      modifies this
      ensures Valid() && forall b :: Live(View(), b) <==> Live(old(View()), b) && b != Run(page, pages)
      ensures Reaches(old(View()), View())
    {
      ghost var t := AfterFree(View(), page, x);
      LinkFree(page, pages);
      lists := t.lists;
      assert word == t.word;
    }

    // The writes
    method LinkFree(page: int, pages: nat)
      requires 0 <= page && 0 < pages && page + pages <= n && |word| == |tag| == n &&
        (forall j :: 0 <= j < n ==> j in cell)
      requires Linkable(cell, n + SLOTS, page, pages)
      modifies `cell, `word, `tag
      ensures |word| == n && forall j :: 0 <= j < n ==>
        word[j] == if j == page then Count(pages) else if page < j < page + pages then Count(0) else old(word)[j]
      ensures cell == FreedCells(old(cell), n + SLOTS, page, pages) && tag == old(tag)[page := PageTag]
    {
      ZeroRest(page, pages);
      if cell[page].next != NULL {
        cell := Unlink(cell, page);
      }
      tag := tag[page := PageTag];
      cell := PushFront(cell, n + SLOTS, page);
    }

    // The descriptors of a freed run: its length at the head, zeroes after it.
    method ZeroRest(page: int, pages: nat)
      requires 0 <= page && 0 < pages && page + pages <= n && |word| == n && forall j :: 0 <= j < n ==> j in cell
      modifies `cell, `word
      ensures |word| == n && forall j :: 0 <= j < n ==> word[j] == if j == page then Count(pages)
        else if page < j < page + pages then Count(0) else old(word)[j]
      ensures cell == Cleared(old(cell), page + 1, pages - 1)
    {
      word := word[page := Count(pages)];
      var k := 1;
      assert cell == Cleared(cell, page + 1, 0);
      while k < pages
        invariant 1 <= k <= pages && |word| == n
        invariant forall j :: 0 <= j < n ==> word[j] == if j == page then Count(pages)
          else if page < j < page + k then Count(0) else old(word)[j]
        invariant cell == Cleared(old(cell), page + 1, k - 1)
      {
        word := word[page + k := Count(0)];
        cell := cell[page + k := NONE];
        k := k + 1;
      }
    }

    // A listed page gives up its lowest free chunk; a page that becomes full leaves its slot list.
    method UseChunk(page: int, shift: nat) returns (j: nat)
      requires Valid() && 0 <= page < n && word[page] == Layout(shift) && MIN_SHIFT <= shift < PAGE_SHIFT
      requires page in lists[n + shift - MIN_SHIFT] && HasFree(used[page])
      modifies this
      ensures Valid() && CanUse(old(View()), page, j) && View() == Used(old(View()), page, j)
      ensures forall k :: 0 <= k < j ==> old(used)[page][k]
    {
      ghost var p := View();
      assert UsedAt(p, page, -1);
      var full;
      if shift < EXACT_SHIFT {
        j, full := ScanSmall(used[page]);
      } else {
        j, full := ScanMap(used[page]);
      }
      UseFacts(p, page, j);
      UsedInv(p, page, j);
      ghost var t := Used(p, page, j);
      used := used[page := used[page][j := true]];
      if full {
        cell := Unlink(cell, page);
        cell := cell[page := NONE];
      }
      lists := t.lists;
    }

    // A page just taken is cut into chunks of the given size and linked as the only page of its slot.
    method CutPage(page: int, shift: nat)
      requires Valid() && CanCut(View(), page, shift)
      modifies this
      ensures Valid() && View() == Cut(old(View()), page, shift)
    {
      ghost var p := View();
      CutInv(p, page, shift);
      var slot := n + shift - MIN_SHIFT;
      used := used[page := FreshBitmap(shift)];
      word := word[page := Layout(shift)];
      tag := tag[page := TagOf(shift)];
      cell := cell[page := Cell(slot, slot)];
      cell := cell[slot := cell[slot].(next := page)];
      lists := lists[slot := [page]];
    }

    // Whether the list of free runs has one: the first answers a request for no page at all.
    method HasRun() returns (some: bool)
      requires Valid()
      ensures some <==> lists[n + SLOTS] != []
      ensures !some ==> forall i :: 0 <= i < n && word[i].Count? ==> word[i].n == 0
    {
      ghost var p, q := View(), lists[n + SLOTS];
      assert ListAt(p, n + SLOTS);
      assert q != [] ==> LinkAt(cell, n + SLOTS, q, 0) && q[0] in q;
      some := cell[n + SLOTS].next != n + SLOTS;
      forall i | 0 <= i < n && word[i].Count? && word[i].n > 0 ensures i in q {
        assert Listed(p, n + SLOTS, i);
      }
    }

    // ngx_slab_alloc_locked: a new live block, the smallest that holds size bytes, or 0 when no memory is left.  Where
    // rounding up wraps around, no page is asked for; `lost` says that a free run is then cut all the same, and the
    // whole address space marked as its rest.
    method AllocLocked(size: nat) returns (addr: int, lost: bool, ghost b: Block)
      requires Valid() && size < WORD_SIZE
      modifies this
      ensures lost <==> size + PAGE_SIZE - 1 >= WORD_SIZE && old(lists[n + SLOTS]) != []
      ensures Valid()
      ensures addr == 0 ==> View() == old(View()) && (lost || NoRoom(View(), size))
      ensures addr != 0 ==> addr == start + Address(b) && Snug(b, size) && Added(old(View()), View(), b)
      ensures Reaches(old(View()), View())
    {
      addr, lost, b := 0, false, Run(0, 0);
      if size >= MAX_SIZE {
        var pages := (size + PAGE_SIZE - 1) % WORD_SIZE / PAGE_SIZE;
        if pages == 0 {
          ReachesSame(View());
          lost := HasRun();
        } else {
          addr, b := AllocRun(pages);
        }
        return;
      }
      var shift := MIN_SHIFT;
      if size > 8 {
        shift := ShiftFor(size);
      }
      addr, b := AllocChunk(shift);
      if addr == 0 { EmptySlot(View(), shift, size); }
    }

    method AllocRun(pages: nat) returns (addr: int, ghost b: Block)
      requires Valid() && 0 < pages
      modifies this
      ensures Valid()
      ensures addr == 0 ==> View() == old(View()) && forall i :: 0 <= i < n && word[i].Count? ==> word[i].n < pages
      ensures addr != 0 ==> addr == start + Address(b) && b.Run? && b.pages == pages && Added(old(View()), View(), b)
      ensures Reaches(old(View()), View())
    {
      ghost var p := View();
      b := Run(0, 0);
      addr := 0;
      ReachesSame(p);
      var page, f := AllocPages(pages);
      if page != NULL {
        b := Run(page, pages);
        SplitReaches(p, f, pages);
        forall c ensures Live(View(), c) <==> Live(p, c) || c == b { TakenLive(p, f, pages, c); }
        addr := page * PAGE_SIZE + start;
      }
    }

    // The part of ngx_slab_alloc_locked for sizes below half a page.
    method AllocChunk(shift: nat) returns (addr: int, ghost b: Block)
      requires Valid() && MIN_SHIFT <= shift < PAGE_SHIFT
      modifies this
      ensures Valid()
      ensures addr == 0 ==>
        View() == old(View()) && lists[n + shift - MIN_SHIFT] == [] &&
        (forall i :: 0 <= i < n && word[i].Count? ==> word[i].n < 1)
      ensures addr != 0 ==> addr == start + Address(b) && b.Chunk? && b.shift == shift && Added(old(View()), View(), b)
      ensures Reaches(old(View()), View())
    {
      ghost var p := View();
      var slot := n + shift - MIN_SHIFT;
      assert ListAt(p, slot);
      assert |lists[slot]| > 0 ==> LinkAt(cell, slot, lists[slot], 0);
      b := Chunk(0, 0, 0);
      var page := cell[slot].next;
      if cell[page].next != page {
        // the first page of the list has a free chunk, so the search ends there
        assert page in p.lists[slot];
        var j := UseChunk(page, shift);
        b := Chunk(page, shift, j);
        TakeReaches(p, page, j);
        forall c ensures Live(View(), c) <==> Live(p, c) || c == b { UsedLive(p, page, j, c); }
        addr := page * PAGE_SIZE + j * SizeOf(shift) + start;
        UseFacts(p, page, j);
        ChunkFits(shift, j);
        return;
      }
      assert p.lists[slot] == [];
      addr, b := AllocFresh(shift);
    }

    method AllocFresh(shift: nat) returns (addr: int, ghost b: Block)
      requires Valid() && MIN_SHIFT <= shift < PAGE_SHIFT && lists[n + shift - MIN_SHIFT] == []
      modifies this
      ensures Valid()
      ensures addr == 0 ==> View() == old(View()) && forall i :: 0 <= i < n && word[i].Count? ==> word[i].n < 1
      ensures addr != 0 ==> addr == start + Address(b) && b.Chunk? && b.shift == shift && Added(old(View()), View(), b)
      ensures Reaches(old(View()), View())
    {
      ghost var p := View();
      b := Chunk(0, 0, 0);
      addr := 0;
      ReachesSame(p);
      var page, f := AllocPages(1);
      if page != NULL {
        FreshReady(p, f, page, shift);
        CutPage(page, shift);
        b := Chunk(page, shift, Reserved(shift));
        FreshAdded(p, f, page, shift);
        FreshReaches(p, f, page, shift);
        addr := page * PAGE_SIZE + SizeOf(shift) * Reserved(shift) + start;
      }
    }

    // ngx_slab_free_locked: it frees exactly what Accepts says.  A live block stops being live and a free run stays as
    // it was; only a chunk of a bitmap breaks the pool, and then the chunk is free to be handed out.
    method FreeLocked(addr: int, end: int) returns (r: Outcome, ghost b: Block)
      requires Valid() && start + n * PAGE_SIZE <= end
      modifies this
      ensures r == Behind <==> start + n * PAGE_SIZE <= addr <= end
      ensures r == Freed <==> start <= addr <= end && Accepts(old(View()), addr - start)
      ensures r != Behind ==> (Valid() <==> !(start <= addr <= end && AtBitmap(old(View()), addr - start)))
      ensures r != Freed && r != Behind ==>
        View() == old(View()) && forall c :: Live(View(), c) ==> start + Address(c) != addr
      ensures r == Freed && AtFreeRun(old(View()), addr - start) ==> forall c :: Live(View(), c) <==>
        Live(old(View()), c)
      ensures r == Freed && !AtFreeRun(old(View()), addr - start) && !AtBitmap(old(View()), addr - start) ==>
        Live(old(View()), b) && start + Address(b) == addr && Removed(old(View()), View(), b)
      ensures r == Freed && AtBitmap(old(View()), addr - start) ==> HandsOutBitmap(View(), (addr - start) / PAGE_SIZE)
      ensures Reaches(old(View()), View())
    {
      b := Run(0, 0);
      ghost var p := View();
      ReachesSame(p);
      if addr < start || addr > end {
        forall c | Live(p, c) ensures start + Address(c) != addr { LivePlaced(p, c); }
        return OutsidePool, b;
      }
      var off := addr - start;
      var page, rest := off / PAGE_SIZE, off % PAGE_SIZE;
      if page >= n {
        return Behind, b;
      }
      forall c | Live(p, c) && Address(c) == off ensures c.page == page && rest == Offset(c) { AddressParts(p, c); }
      assert PartAt(p, page) && UsedAt(p, page, -1);
      if tag[page] == PageTag {
        r, b := FreeRun(page, rest);
      } else {
        r, b := FreeChunk(page, rest);
      }
    }

    method FreeRun(page: int, rest: int) returns (r: Outcome, ghost b: Block)
      requires Valid() && 0 <= page < n && 0 <= rest < PAGE_SIZE && tag[page] == PageTag && !word[page].Layout?
      modifies this
      ensures r != Behind
      ensures Valid() && (r == Freed <==>
        rest == 0 && (old(word)[page].Started? || (old(word)[page].Count? && old(word)[page].n > 0)))
      ensures r == Freed && old(word)[page].Started? ==>
        b.Run? && b.page == page && Live(old(View()), b) && Removed(old(View()), View(), b)
      ensures r == Freed && old(word)[page].Count? ==> forall c :: Live(View(), c) <==> Live(old(View()), c)
      ensures r != Freed ==> View() == old(View())
      ensures Reaches(old(View()), View())
    {
      b := Run(0, 0);
      ReachesSame(View());
      if rest != 0 {
        return WrongChunk, b;
      }
      if word[page] == Count(0) {
        return PageAlreadyFree, b;
      }
      if word[page] == PageBusy {
        return WrongPage, b;
      }
      assert PartAt(View(), page);
      b := Run(page, word[page].n);
      FreePages(page, word[page].n, -1);
      r := Freed;
    }

    method FreeChunk(page: int, rest: int) returns (r: Outcome, ghost b: Block)
      requires Valid() && 0 <= page < n && 0 <= rest < PAGE_SIZE && word[page].Layout?
      modifies this
      ensures r != Behind
      ensures var s, u := old(word)[page].shift, old(used)[page];
        r == Freed <==> rest % SizeOf(s) == 0 && rest / SizeOf(s) < |u| && u[rest / SizeOf(s)]
      ensures var s := old(word)[page].shift; var low := rest % SizeOf(s) == 0 && rest < Reserved(s) * SizeOf(s);
        && (Valid() <==> !low) && (low ==> r == Freed && HandsOutBitmap(View(), page))
        && (!low && r == Freed ==>
              b.Chunk? && b.page == page && rest == Offset(b) && Live(old(View()), b) &&
              Removed(old(View()), View(), b))
      ensures r != Freed ==> View() == old(View()) && forall c :: Live(View(), c) && c.page == page ==>
        rest != Offset(c)
      ensures Reaches(old(View()), View())
    {
      ghost var p := View();
      assert PartAt(p, page) && UsedAt(p, page, -1);
      var shift := word[page].shift;
      b := Run(0, 0);
      ReachesSame(p);
      forall c | Live(p, c) && c.page == page && Offset(c) == rest
        ensures rest % SizeOf(shift) == 0 && c == Chunk(page, shift, rest / SizeOf(shift))
      {
        ChunkIndex(shift, c.index);
      }
      if rest % SizeOf(shift) != 0 {
        return WrongChunk, b;
      }
      var j := rest / SizeOf(shift);
      IndexInRange(shift, rest);
      if !used[page][j] {
        return ChunkAlreadyFree, b;
      }
      b := Chunk(page, shift, j);
      ReleaseChunk(page, j);
      r := Freed;
    }

    // The chunk is cleared in the bitmap; a full page goes back to its slot list, an emptied one to the free list.
    method ReleaseChunk(page: int, j: int)
      requires Valid() && InUse(View(), page, j)
      modifies this
      ensures Reserved(old(word)[page].shift) <= j ==>
        Valid() && Removed(old(View()), View(), Chunk(page, old(word)[page].shift, j))
      ensures j < Reserved(old(word)[page].shift) ==> !Valid() && HandsOutBitmap(View(), page)
      ensures Reaches(old(View()), View())
    {
      ghost var p := View();
      var shift := word[page].shift;
      AfterRelease(p, page, j);
      DropReaches(p, page, j);
      ClearChunk(page, j);
      var busy := AnyInUse(used[page], Reserved(shift));
      if !busy {
        ghost var t := View();
        FreePages(page, 1, page);
        ReachesOn(p, t, View());
      }
    }

    method ClearChunk(page: int, j: int)
      requires Valid() && InUse(View(), page, j)
      modifies `cell, `used, `lists
      ensures View() == Released(old(View()), page, j)
    {
      ghost var t := Released(View(), page, j);
      ReleaseFacts(View(), page, j);
      if cell[page].next == NULL {
        cell := PushFront(cell, n + word[page].shift - MIN_SHIFT, page);
      }
      used := used[page := used[page][j := false]];
      lists := t.lists;
    }

    // Whether a chunk past the reserved ones is in use.
    method AnyInUse(u: seq<bool>, r: nat) returns (busy: bool)
      ensures busy <==> HasLive(u, r)
    {
      var k := r;
      while k < |u|
        invariant r <= k && forall m :: r <= m < k && m < |u| ==> !u[m]
      {
        if u[k] {
          return true;
        }
        k := k + 1;
      }
      busy := false;
    }
  }

  // The page is listed as one with a free chunk, and its lowest free chunk is part of its bitmap.
  ghost predicate HandsOutBitmap(p: Pool, i: int) {
    && 0 <= i < |p.word| && i < |p.used| && p.word[i].Layout?
    && SlotHeader(p, p.word[i].shift) in p.lists && i in p.lists[SlotHeader(p, p.word[i].shift)]
    && exists j :: 0 <= j < Reserved(p.word[i].shift) && j < |p.used[i]| && !p.used[i][j]
  }

  lemma AfterRelease(p: Pool, i: int, j: int)
    requires InUse(p, i, j)
    ensures var t, r := Released(p, i, j), Reserved(p.word[i].shift);
      && 0 <= i < |t.word| && t.word == p.word && i < |t.used|
      && (j < r ==> !Inv(t, -1) && HandsOutBitmap(t, i) && HasLive(t.used[i], r))
      && (r <= j ==> Removed(p, t, Chunk(i, p.word[i].shift, j)) && if HasLive(t.used[i], r) then Inv(t, -1)
         else CanGive(t, i, i))
  {
    var t, s := Released(p, i, j), p.word[i].shift;
    ReleaseFacts(p, i, j);
    assert !t.used[i][j];
    if j < Reserved(s) {
      ReleasedBitmap(p, i, j);
    } else {
      ReleasedInv(p, i, j);
      forall c ensures Live(t, c) <==> Live(p, c) && c != Chunk(i, s, j) { ReleasedLive(p, i, j, c); }
    }
  }

  // The pool after ngx_slab_free_pages
  lemma AfterFree(p: Pool, i: int, x: int) returns (t: Pool)
    requires CanGive(p, i, x) || CanMove(p, i)
    ensures 0 <= i && i + Len(p.word[i]) <= p.n && Len(p.word[i]) > 0 &&
      Linkable(p.cell, FreeHeader(p), i, Len(p.word[i]))
    ensures |p.word| == |p.tag| == p.n && (forall j :: 0 <= j < p.n ==> j in p.cell) && |t.word| == p.n
    ensures forall j :: 0 <= j < p.n ==>
      t.word[j] == if j == i then Count(Len(p.word[i])) else if i < j < i + Len(p.word[i]) then Count(0) else p.word[j]
    ensures t == p.(word := t.word, lists := t.lists, tag := p.tag[i := PageTag],
      cell := FreedCells(p.cell, FreeHeader(p), i, Len(p.word[i])))
    ensures Inv(t, -1) && forall b :: Live(t, b) <==> Live(p, b) && b != Run(i, Len(p.word[i]))
    ensures Reaches(p, t)
  {
    if p.word[i].Count? {
      MoveReaches(p, i);
      RunFacts(p, FreeIndex(p, i), i, p.word[i].n);
      MoveReady(p, i);
      MovedInv(p, i);
      t := Moved(p, i);
    } else {
      GiveFacts(p, i, x);
      GivenReady(p, i, x);
      GivenInv(p, i, x);
      GivenCells(p, i, x);
      t := Given(p, i, x);
      GiveReaches(p, i, x);
      forall b ensures Live(t, b) <==> Live(p, b) && b != Run(i, Len(p.word[i])) { GivenLive(p, i, x, b); }
    }
  }

  // ---- what a caller sees over whole runs ----

  datatype Op = Alloc(size: nat) | Free(k: nat)

  datatype Held = Held(addr: int, size: nat)

  // The memory the caller holds is the memory of distinct live blocks.
  ghost predicate Backed(p: Pool, start: int, held: seq<Held>, blocks: seq<Block>) {
    && |held| == |blocks|
    && (forall i :: 0 <= i < |held| ==>
       Live(p, blocks[i]) && held[i].addr == start + Address(blocks[i]) && held[i].size <= Size(blocks[i]))
    && (forall i, j :: 0 <= i < j < |blocks| ==> blocks[i] != blocks[j])
  }

  lemma LiveAccepted(p: Pool, b: Block)
    requires Inv(p, -1) && Live(p, b)
    ensures 0 <= Address(b) < p.n * PAGE_SIZE && Accepts(p, Address(b)) && !AtFreeRun(p, Address(b)) &&
      !AtBitmap(p, Address(b))
  {
    AddressParts(p, b);
    LivePlaced(p, b);
    assert PartAt(p, b.page) && UsedAt(p, b.page, -1);
    if b.Chunk? { ChunkAccepted(b.shift, b.index); }
  }

  lemma ChunkAccepted(s: nat, j: int)
    requires MIN_SHIFT <= s < PAGE_SHIFT && Reserved(s) <= j < Chunks(s)
    ensures (j * SizeOf(s)) % SizeOf(s) == 0 && j * SizeOf(s) / SizeOf(s) == j &&
      j * SizeOf(s) >= Reserved(s) * SizeOf(s)
  {
    ChunkIndex(s, j);
    ChunkFits(s, j);
    IndexInRange(s, j * SizeOf(s));
  }

  lemma SameAddress(p: Pool, b: Block, c: Block)
    requires Inv(p, -1) && Live(p, b) && Live(p, c) && Address(b) == Address(c)
    ensures b == c
  {
    if b != c {
      assert PartAt(p, b.page) && PartAt(p, c.page);
      LiveDisjoint(p, b, c);
    }
  }

  // What the caller of a run holds: what the allocations that succeeded gave it and it has not freed.
  function Ledger(ops: seq<Op>, got: seq<int>): seq<Held>
    requires |ops| == |got|
  {
    if ops == [] then []
    else
      var n := |ops| - 1;
      var held := Ledger(ops[..n], got[..n]);
      match ops[n]
      case Alloc(size) => if got[n] != 0 then held + [Held(got[n], size)] else held
      case Free(k) => if k < |held| then held[..k] + held[k + 1..] else held
  }

  lemma LedgerStep(ops: seq<Op>, i: nat, got: seq<int>, x: int)
    requires i < |ops| && |got| == i
    ensures Ledger(ops[..i + 1], got + [x]) ==
              var held := Ledger(ops[..i], got);
              match ops[i]
              case Alloc(size) => if x != 0 then held + [Held(x, size)] else held
              case Free(k) => if k < |held| then held[..k] + held[k + 1..] else held
  {
    assert ops[..i + 1][..i] == ops[..i] && (got + [x])[..i] == got;
  }

  // Over any run of allocations and frees of held pointers, what is held lies in the pool and never overlaps; `got` is
  // what each of the allocations gave.
  method Replay(pages: Pages, ops: seq<Op>, end: int) returns (got: seq<int>, held: seq<Held>)
    requires pages.Valid() && pages.start + pages.n * PAGE_SIZE <= end
    requires forall op :: op in ops && op.Alloc? ==> op.size + PAGE_SIZE - 1 < WORD_SIZE
    modifies pages
    ensures pages.Valid() && |got| == |ops| && held == Ledger(ops, got) && Reaches(old(pages.View()), pages.View())
    ensures forall i :: 0 <= i < |held| ==>
      pages.start <= held[i].addr && held[i].addr + held[i].size <= pages.start + pages.n * PAGE_SIZE
    ensures forall i, j :: 0 <= i < j < |held| ==>
      held[i].addr + held[i].size <= held[j].addr || held[j].addr + held[j].size <= held[i].addr
  {
    got, held := [], [];
    ghost var blocks: seq<Block> := [];
    ReachesSame(pages.View());
    for i := 0 to |ops|
      invariant pages.Valid() && Backed(pages.View(), pages.start, held, blocks)
      invariant |got| == i && held == Ledger(ops[..i], got) && Reaches(old(pages.View()), pages.View())
    {
      ghost var p := pages.View();
      match ops[i] {
        case Alloc(size) =>
          assert ops[i] in ops;
          var addr, _, b := pages.AllocLocked(size);
          ReachesOn(old(pages.View()), p, pages.View());
          LedgerStep(ops, i, got, addr);
          got := got + [addr];
          if addr != 0 {
            BackedMore(p, pages.View(), pages.start, held, blocks, Held(addr, size), b);
            held, blocks := held + [Held(addr, size)], blocks + [b];
          }
        case Free(k) =>
          LedgerStep(ops, i, got, 0);
          got := got + [0];
          if k < |held| {
            FreeHeld(pages, held[k].addr, end, blocks[k]);
            ReachesOn(old(pages.View()), p, pages.View());
            BackedLess(p, pages.View(), pages.start, held, blocks, k);
            held, blocks := held[..k] + held[k + 1..], blocks[..k] + blocks[k + 1..];
          }
      }
    }
    assert ops[..|ops|] == ops;
    HeldApart(pages.View(), pages.start, held, blocks);
  }

  // Freeing a live block
  method FreeHeld(pages: Pages, addr: int, end: int, ghost blk: Block)
    requires pages.Valid() && pages.start + pages.n * PAGE_SIZE <= end && Live(pages.View(), blk) &&
      addr == pages.start + Address(blk)
    modifies pages
    ensures pages.Valid() && Removed(old(pages.View()), pages.View(), blk)
    ensures Reaches(old(pages.View()), pages.View())
  {
    ghost var p := pages.View();
    LiveAccepted(p, blk);
    var r, b := pages.FreeLocked(addr, end);
    SameAddress(p, b, blk);
  }

  lemma BackedMore(p: Pool, q: Pool, start: int, held: seq<Held>, blocks: seq<Block>, h: Held, b: Block)
    requires Backed(p, start, held, blocks) && Added(p, q, b) && h.addr == start + Address(b) && h.size <= Size(b)
    ensures Backed(q, start, held + [h], blocks + [b])
  {}

  lemma BackedLess(p: Pool, q: Pool, start: int, held: seq<Held>, blocks: seq<Block>, k: nat)
    requires Backed(p, start, held, blocks) && k < |held| && Removed(p, q, blocks[k])
    ensures Backed(q, start, held[..k] + held[k + 1..], blocks[..k] + blocks[k + 1..])
  {}

  lemma HeldApart(p: Pool, start: int, held: seq<Held>, blocks: seq<Block>)
    requires Inv(p, -1) && Backed(p, start, held, blocks)
    ensures forall i :: 0 <= i < |held| ==>
      start <= held[i].addr && held[i].addr + held[i].size <= start + p.n * PAGE_SIZE
    ensures forall i, j :: 0 <= i < j < |held| ==>
      held[i].addr + held[i].size <= held[j].addr || held[j].addr + held[j].size <= held[i].addr
  {
    forall i | 0 <= i < |held| ensures start <= held[i].addr && held[i].addr + held[i].size <= start + p.n * PAGE_SIZE {
      LivePlaced(p, blocks[i]);
    }
    forall i, j | 0 <= i < j < |held|
      ensures held[i].addr + held[i].size <= held[j].addr || held[j].addr + held[j].size <= held[i].addr
    {
      LiveDisjoint(p, blocks[i], blocks[j]);
    }
  }

  // Of all addresses in the pool, free takes the starts of live blocks, the heads of free runs and the chunks of
  // bitmaps, and the three are different.
  lemma AcceptsIff(p: Pool, off: int)
    requires Inv(p, -1) && 0 <= off < p.n * PAGE_SIZE
    ensures Accepts(p, off) <==> (exists b :: Live(p, b) && Address(b) == off) || AtFreeRun(p, off) || AtBitmap(p, off)
    ensures !(AtFreeRun(p, off) && AtBitmap(p, off)) &&
      (AtFreeRun(p, off) || AtBitmap(p, off) ==> forall b :: Live(p, b) ==> Address(b) != off)
  {
    var page, rest := off / PAGE_SIZE, off % PAGE_SIZE;
    assert PartAt(p, page) && UsedAt(p, page, -1);
    forall b | Live(p, b) && Address(b) == off ensures Accepts(p, off) && !AtFreeRun(p, off) && !AtBitmap(p, off) {
      LiveAccepted(p, b);
    }
    match p.word[page]
    case Count(k) =>
    case PageBusy =>
    case Started(k) =>
      if rest == 0 { assert Live(p, Run(page, k)); }
    case Layout(s) =>
      if rest % SizeOf(s) == 0 {
        IndexInRange(s, rest);
        var j := rest / SizeOf(s);
        if j >= Reserved(s) && p.used[page][j] { assert Live(p, Chunk(page, s, j)) &&
          Address(Chunk(page, s, j)) == off; }
      }
  }

  // A pool in which the bitmap chunk of a page is freed: the first allocation of 8 bytes, and the start of its page.
  method FreedBitmap() returns (pages: Pages, addr: int, r: Outcome)
    ensures fresh(pages) && addr != 0 && r == Freed && !pages.Valid()
  {
    var end := 32 * PAGE_SIZE;
    pages := new Pages(PAGE_SIZE, end);
    ghost var b;
    var lost;
    addr, lost, b := pages.AllocLocked(8);
    r := FreeStartOfPage(pages, addr, end, b);
  }

  method FreeStartOfPage(pages: Pages, addr: int, end: int, ghost b: Block) returns (r: Outcome)
    requires pages.Valid() && pages.start + pages.n * PAGE_SIZE <= end && Live(pages.View(), b)
    requires b.Chunk? && b.shift == MIN_SHIFT && addr == pages.start + Address(b)
    modifies pages
    ensures r == Freed && !pages.Valid()
  {
    FirstOfPage(pages.View(), b);
    var page := (addr - pages.start) / PAGE_SIZE;
    ghost var c;
    r, c := pages.FreeLocked(pages.start + page * PAGE_SIZE, end);
  }

  lemma FirstOfPage(p: Pool, b: Block)
    requires Inv(p, -1) && Live(p, b) && b.Chunk? && b.shift == MIN_SHIFT
    ensures Address(b) / PAGE_SIZE == b.page && 0 <= b.page < p.n
    ensures AtBitmap(p, b.page * PAGE_SIZE) && Accepts(p, b.page * PAGE_SIZE)
  {
    AddressParts(p, b);
    assert PartAt(p, b.page) && UsedAt(p, b.page, -1);
    var off := b.page * PAGE_SIZE;
    assert off / PAGE_SIZE == b.page && off % PAGE_SIZE == 0;
  }

  // The end of a pool counts as inside, and has no descriptor.
  method FreedEnd(pages: Pages, end: int) returns (r: Outcome)
    requires pages.Valid() && pages.start + pages.n * PAGE_SIZE <= end
    modifies pages
    ensures r == Behind
  {
    ghost var b;
    r, b := pages.FreeLocked(end, end);
  }

  // A new pool, of which almost the whole address space is wanted
  method AskedForAll() returns (lost: bool)
    ensures lost
  {
    var pages := new Pages(PAGE_SIZE, 32 * PAGE_SIZE);
    assert ListAt(pages.View(), pages.n + SLOTS) && Listed(pages.View(), pages.n + SLOTS, 0);
    assert 0 in pages.lists[pages.n + SLOTS];
    var addr;
    ghost var b;
    addr, lost, b := pages.AllocLocked(WORD_SIZE - 1);
  }
}
