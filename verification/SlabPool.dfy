/** The state of the slab pool of nginx/src/core/ngx_slab.c and what every operation keeps.

    64-bit words, 4096-byte pages, min_shift 3 as set in ngx_cycle.c: chunk sizes 8 to 1024 bytes (shift 3 to 10)
    and 2048 (shift 11); shift 6 is the exact size, whose 64 chunks fit one word. */
module SlabPool {
  import opened SlabLists

  const PAGE_SIZE: nat := 4096
  const PAGE_SHIFT: nat := 12
  const MIN_SHIFT: nat := 3
  const EXACT_SHIFT: nat := 6
  const MAX_SIZE: nat := 2048
  const SLOTS: nat := 9
  const WORD_SIZE: nat := 0x1_0000_0000_0000_0000

  // The two low bits of prev.
  datatype Tag = PageTag | Big | Exact | Small

  // The slab field, as its users read it under each tag.
  datatype Word =
    | Count(n: nat)       // free pages: the length at the head of a run, 0 in the rest
    | Started(n: nat)     // n | NGX_SLAB_PAGE_START: the first page of a block of n pages
    | PageBusy            // NGX_SLAB_PAGE_BUSY: the rest of the block
    | Layout(shift: nat)  // a page cut into chunks; the bitmap is in `used`

  // `used` holds the chunk bitmap of a slab page: in the page itself for small chunks, in the slab word for exact
  // ones, in its upper half for big ones.  Ghost parts: `head` maps every page to the first page of its run or
  // block, `lists` gives the pages linked from each header.
  datatype Pool = Pool(
    n: nat,
    cell: map<int, Cell>,
    tag: seq<Tag>,
    word: seq<Word>,
    used: seq<seq<bool>>,
    head: seq<int>,
    lists: map<int, seq<int>>)

  function SizeOf(shift: nat): nat {
    if shift == 3 then 8 else if shift == 4 then 16 else if shift == 5 then 32
    else if shift == 6 then 64 else if shift == 7 then 128 else if shift == 8 then 256
    else if shift == 9 then 512 else if shift == 10 then 1024 else 2048
  }

  // 1 << (ngx_pagesize_shift - shift)
  function Chunks(shift: nat): nat {
    if shift == 3 then 512 else if shift == 4 then 256 else if shift == 5 then 128
    else if shift == 6 then 64 else if shift == 7 then 32 else if shift == 8 then 16
    else if shift == 9 then 8 else if shift == 10 then 4 else 2
  }

  // Chunks at the start of a small page that its bitmap occupies.
  function Reserved(shift: nat): nat {
    if shift >= EXACT_SHIFT then 0
    else
      var n := Chunks(shift) / 8 / SizeOf(shift);
      if n == 0 then 1 else n
  }

  function TagOf(shift: nat): Tag {
    if shift < EXACT_SHIFT then Small else if shift == EXACT_SHIFT then Exact else Big
  }

  function FreeHeader(p: Pool): int {
    p.n + SLOTS
  }

  function SlotHeader(p: Pool, shift: nat): int {
    p.n + shift - MIN_SHIFT
  }

  predicate IsHeader(p: Pool, h: int) {
    p.n <= h <= p.n + SLOTS
  }

  predicate HasFree(u: seq<bool>) {
    exists j :: 0 <= j < |u| && !u[j]
  }

  predicate HasLive(u: seq<bool>, r: nat) {
    exists j :: r <= j < |u| && u[j]
  }

  predicate IsHeadWord(w: Word) {
    match w
    case Count(k) => k > 0
    case Started(k) => k > 0
    case PageBusy => false
    case Layout(s) => MIN_SHIFT <= s < PAGE_SHIFT
  }

  function Len(w: Word): nat {
    match w
    case Count(k) => k
    case Started(k) => k
    case PageBusy => 0
    case Layout(_) => 1
  }

  ghost predicate Sized(p: Pool) {
    && |p.tag| == |p.word| == |p.used| == |p.head| == p.n
    && (forall i :: i in p.cell <==> 0 <= i <= p.n + SLOTS)
    && (forall h :: h in p.lists <==> IsHeader(p, h))
  }

  // Page i belongs to the run that starts at head[i].
  ghost predicate PartAt(p: Pool, i: int) {
    && |p.word| == |p.head| == |p.tag| == p.n && 0 <= i < p.n
    && var h := p.head[i];
    && 0 <= h <= i < h + Len(p.word[h]) <= p.n && IsHeadWord(p.word[h]) && p.head[h] == h
    && (forall j :: h <= j < h + Len(p.word[h]) ==> p.head[j] == h)
    && (i != h ==> p.tag[i] == PageTag && p.word[i] == if p.word[h].Count? then Count(0) else PageBusy)
    && (i == h ==> p.tag[i] == if p.word[i].Layout? then TagOf(p.word[i].shift) else PageTag)
  }

  // Where page i is linked: free runs in the free list, slab pages with a free chunk in the list of their slot.
  ghost predicate Listed(p: Pool, h: int, i: int) {
    && |p.word| == |p.used| == p.n && 0 <= i < p.n
    && match p.word[i] {
         case Count(k) => k > 0 && h == FreeHeader(p)
         case Layout(s) => h == SlotHeader(p, s) && HasFree(p.used[i])
         case _ => false
       }
  }

  ghost predicate ListAt(p: Pool, h: int) {
    && h in p.lists && IsList(p.cell, h, p.lists[h])
    && forall i {:trigger i in p.lists[h]} :: i in p.lists[h] <==> Listed(p, h, i)
  }

  // A page that is in no list has a NULL next field.
  ghost predicate NextAt(p: Pool, i: int) {
    i in p.cell && 0 <= i < |p.word| && 0 <= i < |p.used| &&
    ((match p.word[i] { case Count(k) => k == 0 case Layout(_) => !HasFree(p.used[i]) case _ => true }) ==>
      p.cell[i].next == NULL)
  }

  // The bitmap of a slab page: the chunks it occupies itself are in use, and, unless i is x, some other chunk is.
  ghost predicate UsedAt(p: Pool, i: int, x: int) {
    && 0 <= i < |p.word| && 0 <= i < |p.used|
    && (p.word[i].Layout? ==>
          var s := p.word[i].shift;
          && |p.used[i]| == Chunks(s) && (forall j :: 0 <= j < Reserved(s) ==> p.used[i][j])
          && (i != x ==> HasLive(p.used[i], Reserved(s))))
  }

  // The invariant; x is a slab page about to be given back, or -1.
  ghost predicate Inv(p: Pool, x: int) {
    && Sized(p)
    && (forall i {:trigger PartAt(p, i)} :: 0 <= i < p.n ==> PartAt(p, i))
    && (forall h {:trigger ListAt(p, h)} :: IsHeader(p, h) ==> ListAt(p, h))
    && (forall i {:trigger NextAt(p, i)} :: 0 <= i < p.n ==> NextAt(p, i))
    && (forall i {:trigger UsedAt(p, i, x)} :: 0 <= i < p.n ==> UsedAt(p, i, x))
  }

  // What a caller holds: a chunk of a slab page, or a run of whole pages.
  datatype Block = Chunk(page: int, shift: nat, index: int) | Run(page: int, pages: nat)

  ghost predicate Live(p: Pool, b: Block) {
    && |p.word| == |p.used| == p.n && 0 <= b.page < p.n
    && match b {
         case Chunk(i, s, j) => p.word[i] == Layout(s) && Reserved(s) <= j < |p.used[i]| && p.used[i][j]
         case Run(i, k) => p.word[i] == Started(k)
       }
  }

  // Offset from the start of the pool, and length, of a block.
  function Address(b: Block): int {
    match b
    case Chunk(i, s, j) => i * PAGE_SIZE + j * SizeOf(s)
    case Run(i, _) => i * PAGE_SIZE
  }

  function Size(b: Block): nat {
    match b
    case Chunk(_, s, _) => SizeOf(s)
    case Run(_, k) => k * PAGE_SIZE
  }

  // ---- what the invariant says of addresses ----

  lemma ChunkFits(s: nat, j: int)
    requires MIN_SHIFT <= s < PAGE_SHIFT && 0 <= j < Chunks(s)
    ensures 0 <= j * SizeOf(s) && j * SizeOf(s) + SizeOf(s) <= PAGE_SIZE
  {
    if s == 3 { assert SizeOf(s) == 8; } else if s == 4 { assert SizeOf(s) == 16; }
      else if s == 5 { assert SizeOf(s) == 32; }
    else if s == 6 { assert SizeOf(s) == 64; } else if s == 7 { assert SizeOf(s) == 128; }
      else if s == 8 { assert SizeOf(s) == 256; }
    else if s == 9 { assert SizeOf(s) == 512; } else if s == 10 { assert SizeOf(s) == 1024; }
      else { assert SizeOf(s) == 2048; }
  }

  lemma ChunkAligned(s: nat, i: int, j: int)
    requires MIN_SHIFT <= s < PAGE_SHIFT
    ensures (i * PAGE_SIZE + j * SizeOf(s)) % SizeOf(s) == 0
  {
    if s == 3 { Multiple(8, 512, i, j); } else if s == 4 { Multiple(16, 256, i, j); }
      else if s == 5 { Multiple(32, 128, i, j); }
    else if s == 6 { Multiple(64, 64, i, j); } else if s == 7 { Multiple(128, 32, i, j); }
      else if s == 8 { Multiple(256, 16, i, j); }
    else if s == 9 { Multiple(512, 8, i, j); } else if s == 10 { Multiple(1024, 4, i, j); }
      else { Multiple(2048, 2, i, j); }
  }

  lemma Multiple(m: int, c: int, i: int, j: int)
    requires m > 0 && c * m == 4096
    ensures (i * 4096 + j * m) % m == 0
  {
    var q := i * c + j;
    assert i * 4096 == i * (c * m) == (i * c) * m;
    assert i * 4096 + j * m == q * m;
    Remainder(q, m);
  }

  lemma Remainder(q: int, m: int)
    requires m > 0
    ensures (q * m) % m == 0
  {
    var x := q * m;
    var d := x / m - q;
    assert x / m * m + x % m == x && (x / m) * m == q * m + d * m;
    assert d > 0 ==> d * m >= m;
    assert d < 0 ==> d * m <= 0 - m;
  }

  lemma ChunksApart(s: nat, j: int, k: int)
    requires MIN_SHIFT <= s < PAGE_SHIFT && j < k
    ensures j * SizeOf(s) + SizeOf(s) <= k * SizeOf(s)
  {
    if s == 3 { assert SizeOf(s) == 8; } else if s == 4 { assert SizeOf(s) == 16; }
      else if s == 5 { assert SizeOf(s) == 32; }
    else if s == 6 { assert SizeOf(s) == 64; } else if s == 7 { assert SizeOf(s) == 128; }
      else if s == 8 { assert SizeOf(s) == 256; }
    else if s == 9 { assert SizeOf(s) == 512; } else if s == 10 { assert SizeOf(s) == 1024; }
      else { assert SizeOf(s) == 2048; }
  }

  // Every live block lies in the pool, is aligned to its chunk size, and stays off the bitmap of a small page
  // (Chunks(s) / 8 bytes at the start of the page).
  lemma LivePlaced(p: Pool, b: Block)
    requires Inv(p, -1) && Live(p, b)
    ensures 0 <= Address(b) && Address(b) + Size(b) <= p.n * PAGE_SIZE
    ensures b.Chunk? ==> Address(b) % Size(b) == 0
    ensures b.Run? ==> Address(b) % PAGE_SIZE == 0
    ensures b.Chunk? && b.shift < EXACT_SHIFT ==> b.page * PAGE_SIZE + Chunks(b.shift) / 8 <= Address(b)
  {
    assert PartAt(p, b.page) && UsedAt(p, b.page, -1);
    match b
    case Run(i, k) => RunPlaced(p, i, k);
    case Chunk(i, s, j) => ChunkPlaced(p.n, i, s, j);
  }

  lemma RunPlaced(p: Pool, i: int, k: nat)
    requires PartAt(p, i) && p.word[i] == Started(k)
    ensures i + k <= p.n && i * PAGE_SIZE + k * PAGE_SIZE <= p.n * PAGE_SIZE && (i * PAGE_SIZE) % PAGE_SIZE == 0
  {}

  lemma ChunkPlaced(n: nat, i: int, s: nat, j: int)
    requires 0 <= i < n && MIN_SHIFT <= s < PAGE_SHIFT && Reserved(s) <= j < Chunks(s) && 0 <= j
    ensures 0 <= i * PAGE_SIZE + j * SizeOf(s) && i * PAGE_SIZE + j * SizeOf(s) + SizeOf(s) <= n * PAGE_SIZE
    ensures (i * PAGE_SIZE + j * SizeOf(s)) % SizeOf(s) == 0
    ensures s < EXACT_SHIFT ==> i * PAGE_SIZE + Chunks(s) / 8 <= i * PAGE_SIZE + j * SizeOf(s)
  {
    ChunkFits(s, j);
    ChunkAligned(s, i, j);
    if s < EXACT_SHIFT { ChunkPastBitmap(s, j); }
  }

  lemma ChunkPastBitmap(s: nat, j: int)
    requires MIN_SHIFT <= s < EXACT_SHIFT && Reserved(s) <= j
    ensures Chunks(s) / 8 <= j * SizeOf(s)
  {
    if s == 3 { assert SizeOf(s) == 8; } else if s == 4 { assert SizeOf(s) == 16; } else { assert SizeOf(s) == 32; }
  }

  // Live blocks do not overlap.
  lemma LiveDisjoint(p: Pool, b: Block, c: Block)
    requires Inv(p, -1) && Live(p, b) && Live(p, c) && b != c
    ensures Address(b) + Size(b) <= Address(c) || Address(c) + Size(c) <= Address(b)
  {
    assert PartAt(p, b.page) && PartAt(p, c.page) && UsedAt(p, b.page, -1) && UsedAt(p, c.page, -1);
    if b.Chunk? { ChunkFits(b.shift, b.index); }
    if c.Chunk? { ChunkFits(c.shift, c.index); }
    if b.page == c.page && b.Chunk? && c.Chunk? {
      if b.index < c.index { ChunksApart(b.shift, b.index, c.index); } else { ChunksApart(b.shift, c.index, b.index); }
    } else {
      PagesApart(p, b.page, c.page);
    }
  }

  // Two runs of pages do not overlap.
  lemma PagesApart(p: Pool, i: int, k: int)
    requires Inv(p, -1) && 0 <= i < p.n && 0 <= k < p.n && i != k && p.head[i] == i && p.head[k] == k
    ensures i + Len(p.word[i]) <= k || k + Len(p.word[k]) <= i
  {
    assert PartAt(p, i) && PartAt(p, k);
  }

  // ---- page accounting ----

  // Pages in free runs, in blocks and in slab pages, from page i on, run by run.
  datatype Tally = Tally(free: nat, blocks: nat, slabs: nat)

  ghost function TallyFrom(p: Pool, i: int): Tally
    requires Inv(p, -1) && 0 <= i <= p.n && (i < p.n ==> p.head[i] == i)
    decreases p.n - i
  {
    if i == p.n then Tally(0, 0, 0)
    else
      NextRun(p, i);
      var r := TallyFrom(p, i + Len(p.word[i]));
      if p.word[i].Count? then r.(free := r.free + p.word[i].n)
      else if p.word[i].Started? then r.(blocks := r.blocks + p.word[i].n)
      else r.(slabs := r.slabs + 1)
  }

  lemma NextRun(p: Pool, i: int)
    requires Inv(p, -1) && 0 <= i < p.n && p.head[i] == i
    ensures 0 < Len(p.word[i]) && !p.word[i].PageBusy?
    ensures var j := i + Len(p.word[i]); j <= p.n && (j < p.n ==> p.head[j] == j)
  {
    assert PartAt(p, i);
    var j := i + Len(p.word[i]);
    if j < p.n { assert PartAt(p, j); assert PartAt(p, p.head[j]); }
  }

  lemma {:induction false} TallyAddsUp(p: Pool, i: int)
    requires Inv(p, -1) && 0 <= i <= p.n && (i < p.n ==> p.head[i] == i)
    ensures var t := TallyFrom(p, i); t.free + t.blocks + t.slabs == p.n - i
    decreases p.n - i
  {
    if i < p.n {
      NextRun(p, i);
      TallyAddsUp(p, i + Len(p.word[i]));
    }
  }

  // A slab page is in the list of its slot exactly when it has a free chunk, and nothing else is in that list, so a
  // search that starts from the first page listed ends there.
  lemma SlotListing(p: Pool, s: nat, i: int)
    requires Inv(p, -1) && MIN_SHIFT <= s < PAGE_SHIFT
    ensures SlotHeader(p, s) in p.lists
    ensures i in p.lists[SlotHeader(p, s)] <==> 0 <= i < p.n && p.word[i] == Layout(s) && HasFree(p.used[i])
  {
    assert ListAt(p, SlotHeader(p, s));
  }

  // Every page is in exactly one free run, block or slab page, and together they are all the pages.
  lemma PagesAccounted(p: Pool)
    requires Inv(p, -1) && 0 < p.n
    ensures p.head[0] == 0 && var t := TallyFrom(p, 0); t.free + t.blocks + t.slabs == p.n
    ensures forall i, h :: 0 <= i < p.n && 0 <= h < p.n ==>
      (p.head[h] == h && h <= i < h + Len(p.word[h]) <==> h == p.head[i])
  {
    assert PartAt(p, 0);
    TallyAddsUp(p, 0);
    forall i, h | 0 <= i < p.n && 0 <= h < p.n
      ensures p.head[h] == h && h <= i < h + Len(p.word[h]) <==> h == p.head[i] {
      assert PartAt(p, i) && PartAt(p, h);
    }
  }
}
