/** The memory pools of nginx/src/core/ngx_palloc.c, on a 64-bit platform with pages of 4096 bytes.

    Addresses are integers and 0 is the null pointer.  A block of the chain, a large allocation and the system's
    allocator are known by addresses and sizes only; `owned` holds what the pool has from the system and not given
    back, `live` what its users have from the pool. */
module Pool {

  const ALIGNMENT := 8       // NGX_ALIGNMENT
  const HEAD := 80           // sizeof(ngx_pool_t)
  const DATA := 32           // sizeof(ngx_pool_data_t)
  const LARGE := 16          // sizeof(ngx_pool_large_t)
  const MIN_SIZE := 112      // NGX_MIN_POOL_SIZE
  const MAX_ALLOC := 4095    // NGX_MAX_ALLOC_FROM_POOL

  const WORD := 0x1_0000_0000_0000_0000

  // (size_t)
  function SizeT(x: int): nat {
    x % WORD
  }

  function Align(p: int): int {
    (p + 7) / 8 * 8
  }

  lemma AlignUp(p: int)
    ensures p <= Align(p) < p + 8 && Align(p) % 8 == 0
  {}

  // No aligned address lies between p and its alignment.
  lemma AlignLeast(p: int, q: int)
    requires p <= q && q % 8 == 0
    ensures Align(p) <= q
  {}

  datatype Block = Block(start: int, last: int, end: int, failed: nat)

  datatype Large = Large(alloc: int, size: nat)

  // Which block of the chain, or which large allocation, counted from the oldest
  datatype Home = InBlock(i: nat) | InLarge(k: nat)

  datatype Chunk = Chunk(size: nat, home: Home)

  // Memory given to a user: from lo up to hi
  datatype Live = Live(lo: int, hi: int, home: Home)

  type Id = nat

  datatype State = State(
    blocks: seq<Block>,
    current: nat,
    large: seq<Large>,
    owned: map<int, Chunk>,
    live: map<Id, Live>)

  function Header(i: nat): int {
    if i == 0 then HEAD else DATA
  }

  ghost predicate BlockAt(s: State, psize: nat, i: nat) {
    i < |s.blocks| ==>
      var b := s.blocks[i];
      && 0 < b.start && b.start % 16 == 0 && b.start in s.owned && s.owned[b.start] == Chunk(psize, InBlock(i))
      && b.end == b.start + psize && b.start + Header(i) <= b.last <= b.end
  }

  ghost predicate LargeAt(s: State, k: nat) {
    k < |s.large| && s.large[k].alloc != 0 ==>
      0 < s.large[k].alloc && s.large[k].alloc in s.owned &&
        s.owned[s.large[k].alloc] == Chunk(s.large[k].size, InLarge(k)) && s.large[k].size > 0
  }

  ghost predicate Disjoint(a: int, n: nat, b: int, m: nat) {
    a + n <= b || b + m <= a
  }

  // What the system gave is one block or one large allocation, and overlaps nothing else it gave.
  ghost predicate OwnedAt(s: State, a: int) {
    a in s.owned ==>
      match s.owned[a].home
      case InBlock(i) => i < |s.blocks| && s.blocks[i].start == a
      case InLarge(k) => k < |s.large| && s.large[k].alloc == a
  }

  ghost predicate OwnedApart(s: State, a: int, b: int) {
    a in s.owned && b in s.owned && a != b ==> Disjoint(a, s.owned[a].size, b, s.owned[b].size)
  }

  ghost predicate LiveAt(s: State, id: Id) {
    id in s.live ==>
      var l := s.live[id];
      && l.lo <= l.hi
      && match l.home
         case InBlock(i) => i < |s.blocks| && s.blocks[i].start + Header(i) <= l.lo && l.hi <= s.blocks[i].last
         case InLarge(k) => k < |s.large| && s.large[k].alloc == l.lo != 0 && l.hi == l.lo + s.large[k].size
  }

  // Two users never share a byte.
  ghost predicate LiveApart(s: State, a: Id, b: Id) {
    a in s.live && b in s.live && a != b ==>
      var l, r := s.live[a], s.live[b];
      l.lo == l.hi || r.lo == r.hi || l.hi <= r.lo || r.hi <= l.lo
  }

  ghost predicate Inv(s: State, psize: nat) {
    && MIN_SIZE <= psize < WORD && psize % ALIGNMENT == 0 && s.current < |s.blocks| && 0 !in s.owned
    && (forall i {:trigger BlockAt(s, psize, i)} :: BlockAt(s, psize, i))
    && (forall k {:trigger LargeAt(s, k)} :: LargeAt(s, k))
    && (forall a {:trigger OwnedAt(s, a)} :: OwnedAt(s, a))
    && (forall a, b {:trigger OwnedApart(s, a, b)} :: OwnedApart(s, a, b))
    && (forall id {:trigger LiveAt(s, id)} :: LiveAt(s, id))
    && (forall a, b {:trigger LiveApart(s, a, b)} :: LiveApart(s, a, b))
  }

  // An allocation from block i, at m
  ghost function Bumped(s: State, i: nat, m: int, size: nat, id: Id): State
    requires i < |s.blocks|
  {
    s.(blocks := s.blocks[i := s.blocks[i].(last := m + size)], live := s.live[id := Live(m, m + size, InBlock(i))])
  }

  lemma BumpedInv(s: State, psize: nat, i: nat, m: int, size: nat, id: Id)
    requires Inv(s, psize) && i < |s.blocks| && id !in s.live && s.blocks[i].last <= m && m + size <= s.blocks[i].end
    ensures Inv(Bumped(s, i, m, size, id), psize)
  {
    var t := Bumped(s, i, m, size, id);
    assert BlockAt(s, psize, i);
    forall j ensures BlockAt(t, psize, j) { assert BlockAt(s, psize, j); }
    forall k ensures LargeAt(t, k) { assert LargeAt(s, k); }
    forall a ensures OwnedAt(t, a) { assert OwnedAt(s, a); }
    forall a, b ensures OwnedApart(t, a, b) { assert OwnedApart(s, a, b); }
    forall x ensures LiveAt(t, x) { assert LiveAt(s, x); }
    forall a, b ensures LiveApart(t, a, b) {
      assert LiveApart(s, a, b);
      BumpedApart(s, psize, i, m, size, id, a);
      BumpedApart(s, psize, i, m, size, id, b);
    }
  }

  // The new memory lies behind all that was given out of its block, and away from everything else.
  lemma BumpedApart(s: State, psize: nat, i: nat, m: int, size: nat, id: Id, a: Id)
    requires Inv(s, psize) && i < |s.blocks| && id !in s.live && s.blocks[i].last <= m && m + size <= s.blocks[i].end
    ensures a in s.live ==> s.live[a].hi <= m || m + size <= s.live[a].lo
  {
    if a in s.live {
      assert LiveAt(s, a) && BlockAt(s, psize, i);
      match s.live[a].home
      case InBlock(j) =>
        if j != i {
          assert BlockAt(s, psize, j) && OwnedApart(s, s.blocks[i].start, s.blocks[j].start);
        }
      case InLarge(k) => assert LargeAt(s, k) && OwnedApart(s, s.blocks[i].start, s.large[k].alloc);
    }
  }

  // The system gives memory that overlaps nothing the pool has.
  ghost predicate Fresh(s: State, p: int, size: nat) {
    p > 0 && p !in s.owned && forall a {:trigger a in s.owned} :: a in s.owned ==> Disjoint(a, s.owned[a].size, p, size)
  }

  // A new block at the end of the chain
  ghost function Chained(s: State, psize: nat, p: int): State {
    s.(blocks := s.blocks + [Block(p, p + DATA, p + psize, 0)],
      owned := s.owned[p := Chunk(psize, InBlock(|s.blocks|))])
  }

  lemma ChainedInv(s: State, psize: nat, p: int)
    requires Inv(s, psize) && Fresh(s, p, psize) && p % 16 == 0
    ensures Inv(Chained(s, psize, p), psize)
  {
    var t := Chained(s, psize, p);
    forall j ensures BlockAt(t, psize, j) { assert BlockAt(s, psize, j); }
    forall k ensures LargeAt(t, k) { assert LargeAt(s, k); }
    forall a ensures OwnedAt(t, a) { assert OwnedAt(s, a); }
    forall a, b ensures OwnedApart(t, a, b) { assert OwnedApart(s, a, b); }
    forall x ensures LiveAt(t, x) { assert LiveAt(s, x); }
    forall a, b ensures LiveApart(t, a, b) { assert LiveApart(s, a, b); }
  }

  // A large allocation, in a record of its own or in one that was free
  ghost function Enlarged(s: State, k: nat, p: int, size: nat, id: Id): State
    requires k <= |s.large|
  {
    s.(large := if k == |s.large| then s.large + [Large(p, size)] else s.large[k := Large(p, size)],
       owned := s.owned[p := Chunk(size, InLarge(k))], live := s.live[id := Live(p, p + size, InLarge(k))])
  }

  lemma EnlargedInv(s: State, psize: nat, k: nat, p: int, size: nat, id: Id)
    requires Inv(s, psize) && Fresh(s, p, size) && size > 0 && id !in s.live && k <= |s.large| &&
      (k < |s.large| ==> s.large[k].alloc == 0)
    ensures Inv(Enlarged(s, k, p, size, id), psize)
  {
    var t := Enlarged(s, k, p, size, id);
    forall j ensures BlockAt(t, psize, j) { assert BlockAt(s, psize, j); }
    forall j ensures LargeAt(t, j) { assert LargeAt(s, j); }
    forall a ensures OwnedAt(t, a) { assert OwnedAt(s, a); }
    forall a, b ensures OwnedApart(t, a, b) { assert OwnedApart(s, a, b); }
    forall x ensures LiveAt(t, x) { assert LiveAt(s, x); }
    forall a, b ensures LiveApart(t, a, b) {
      assert LiveApart(s, a, b);
      EnlargedApart(s, psize, p, size, a);
      EnlargedApart(s, psize, p, size, b);
    }
  }

  lemma EnlargedApart(s: State, psize: nat, p: int, size: nat, a: Id)
    requires Inv(s, psize) && Fresh(s, p, size)
    ensures a in s.live ==> s.live[a].hi <= p || p + size <= s.live[a].lo
  {
    if a in s.live {
      assert LiveAt(s, a);
      match s.live[a].home
      case InBlock(j) => assert BlockAt(s, psize, j) && s.blocks[j].start in s.owned;
      case InLarge(k) => assert LargeAt(s, k) && s.large[k].alloc in s.owned;
    }
  }

  // ngx_pfree of record k; the user whose memory it was is gone.
  ghost function Freed(s: State, k: nat): State
    requires k < |s.large|
  {
    s.(large := s.large[k := Large(0, 0)], owned := s.owned - {s.large[k].alloc},
       live := map x | x in s.live && s.live[x].home != InLarge(k) :: s.live[x])
  }

  lemma FreedInv(s: State, psize: nat, k: nat)
    requires Inv(s, psize) && k < |s.large| && s.large[k].alloc != 0
    ensures s.large[k].alloc in s.owned && Inv(Freed(s, k), psize)
  {
    var t := Freed(s, k);
    assert LargeAt(s, k);
    forall j ensures BlockAt(t, psize, j) { assert BlockAt(s, psize, j); }
    forall j ensures LargeAt(t, j) { assert LargeAt(s, j); }
    forall a ensures OwnedAt(t, a) { assert OwnedAt(s, a); }
    forall a, b ensures OwnedApart(t, a, b) { assert OwnedApart(s, a, b); }
    forall x ensures LiveAt(t, x) { assert LiveAt(s, x); }
    forall a, b ensures LiveApart(t, a, b) { assert LiveApart(s, a, b); }
  }

  // The last allocation of the first block grows in place.
  ghost function Grown(s: State, id: Id, size: nat): State
    requires id in s.live && s.blocks != []
  {
    s.(blocks := s.blocks[0 := s.blocks[0].(last := s.blocks[0].last + size)],
      live := s.live[id := s.live[id].(hi := s.live[id].hi + size)])
  }

  lemma GrownInv(s: State, psize: nat, id: Id, size: nat)
    requires Inv(s, psize) && id in s.live && s.live[id].hi == s.blocks[0].last &&
      s.blocks[0].last + size <= s.blocks[0].end
    ensures Inv(Grown(s, id, size), psize)
  {
    var t := Grown(s, id, size);
    LastInFirst(s, psize, id);
    forall j ensures BlockAt(t, psize, j) { assert BlockAt(s, psize, j); }
    forall j ensures LargeAt(t, j) { assert LargeAt(s, j); }
    forall a ensures OwnedAt(t, a) { assert OwnedAt(s, a); }
    forall a, b ensures OwnedApart(t, a, b) { assert OwnedApart(s, a, b); }
    forall x ensures LiveAt(t, x) { assert LiveAt(s, x); }
    forall a, b ensures LiveApart(t, a, b) {
      assert LiveApart(s, a, b);
      GrownApart(s, psize, id, size, a);
      GrownApart(s, psize, id, size, b);
    }
  }

  // Memory that ends where the first block is filled up to lies in the first block.
  lemma LastInFirst(s: State, psize: nat, id: Id)
    requires Inv(s, psize) && id in s.live && s.live[id].hi == s.blocks[0].last
    ensures s.live[id].home == InBlock(0)
  {
    assert LiveAt(s, id) && BlockAt(s, psize, 0);
    match s.live[id].home
    case InBlock(j) => assert BlockAt(s, psize, j) && OwnedApart(s, s.blocks[0].start, s.blocks[j].start);
    case InLarge(k) => assert LargeAt(s, k) && OwnedApart(s, s.blocks[0].start, s.large[k].alloc);
  }

  lemma GrownApart(s: State, psize: nat, id: Id, size: nat, a: Id)
    requires Inv(s, psize) && id in s.live && s.live[id].home == InBlock(0) && s.live[id].hi == s.blocks[0].last &&
      s.blocks[0].last + size <= s.blocks[0].end
    ensures a in s.live && a != id ==>
      s.live[a].lo == s.live[a].hi || s.live[a].hi <= s.live[id].lo || s.live[id].hi + size <= s.live[a].lo
  {
    if a in s.live && a != id {
      assert LiveApart(s, a, id) && LiveAt(s, a) && LiveAt(s, id) && BlockAt(s, psize, 0);
      match s.live[a].home
      case InBlock(j) => assert BlockAt(s, psize, j) && OwnedApart(s, s.blocks[0].start, s.blocks[j].start);
      case InLarge(k) => assert LargeAt(s, k) && OwnedApart(s, s.blocks[0].start, s.large[k].alloc);
    }
  }

  lemma OwnedHomes(s: State, psize: nat)
    requires Inv(s, psize)
    ensures forall a :: a in s.owned && s.owned[a].home.InBlock? ==>
      s.owned[a].home.i < |s.blocks| && s.blocks[s.owned[a].home.i].start == a
    ensures forall a :: a in s.owned && s.owned[a].home.InLarge? ==>
      s.owned[a].home.k < |s.large| && s.large[s.owned[a].home.k].alloc == a
  {
    forall a | a in s.owned
      ensures s.owned[a].home.InBlock? ==> s.owned[a].home.i < |s.blocks| && s.blocks[s.owned[a].home.i].start == a
      ensures s.owned[a].home.InLarge? ==> s.owned[a].home.k < |s.large| && s.large[s.owned[a].home.k].alloc == a
    {
      assert OwnedAt(s, a);
    }
  }

  lemma LivePositive(s: State, psize: nat, id: Id)
    requires Inv(s, psize) && id in s.live
    ensures s.live[id].lo > 0
  {
    assert LiveAt(s, id);
    match s.live[id].home
    case InBlock(i) => assert BlockAt(s, psize, i);
    case InLarge(k) => assert LargeAt(s, k);
  }

  // Blocks that differ in their failure counts only
  ghost predicate SameButFailed(bs: seq<Block>, cs: seq<Block>) {
    |bs| == |cs| && forall i :: 0 <= i < |bs| ==> bs[i].(failed := 0) == cs[i].(failed := 0)
  }

  lemma SameButFailedInv(s: State, t: State, psize: nat)
    requires Inv(s, psize) && SameButFailed(s.blocks, t.blocks) && t == s.(blocks := t.blocks, current := t.current) &&
      t.current < |t.blocks|
    ensures Inv(t, psize)
  {
    forall j: nat ensures BlockAt(t, psize, j) {
      assert BlockAt(s, psize, j);
      assert j < |s.blocks| ==> s.blocks[j].(failed := 0) == t.blocks[j].(failed := 0);
    }
    forall j ensures LargeAt(t, j) { assert LargeAt(s, j); }
    forall a ensures OwnedAt(t, a) {
      assert OwnedAt(s, a);
      if a in s.owned && s.owned[a].home.InBlock? {
        assert s.blocks[s.owned[a].home.i].(failed := 0) == t.blocks[s.owned[a].home.i].(failed := 0);
      }
    }
    forall a, b ensures OwnedApart(t, a, b) { assert OwnedApart(s, a, b); }
    forall x ensures LiveAt(t, x) {
      assert LiveAt(s, x);
      if x in s.live && s.live[x].home.InBlock? {
        assert s.blocks[s.live[x].home.i].(failed := 0) == t.blocks[s.live[x].home.i].(failed := 0);
      }
    }
    forall a, b ensures LiveApart(t, a, b) { assert LiveApart(s, a, b); }
  }

  // The room left in a block, as the code computes it
  lemma RoomIsRight(s: State, psize: nat, i: nat, aligned: bool)
    requires Inv(s, psize) && i < |s.blocks|
    ensures var b := s.blocks[i]; var m := if aligned then Align(b.last) else b.last;
            b.last <= m <= b.end && SizeT(b.end - m) == b.end - m
  {
    assert BlockAt(s, psize, i);
    var b := s.blocks[i];
    AlignUp(b.last);
    AlignLeast(b.last, b.end);
  }

  // Without an aligned end the difference may be negative, and then any size seems to fit.
  lemma UnalignedEnd(last: int, end: int, size: nat)
    requires last <= end < Align(last) && size < WORD - 8
    ensures SizeT(end - Align(last)) >= size
  {
    AlignUp(last);
  }

  class Arena {
    const psize: nat
    const max: nat
    var blocks: seq<Block>       // the chain, the pool itself first
    var current: nat
    var large: seq<Large>        // the list, its head last
    ghost var owned: map<int, Chunk>
    ghost var live: map<Id, Live>

    ghost function View(): State
      reads this
    {
      State(blocks, current, large, owned, live)
    }

    ghost predicate Valid()
      reads this
    {
      Inv(View(), psize) && max == if psize - HEAD < MAX_ALLOC then psize - HEAD else MAX_ALLOC
    }

    // ngx_create_pool, with memory from the system
    constructor (p: int, size: nat)
      requires p > 0 && p % 16 == 0 && MIN_SIZE <= size < WORD && size % ALIGNMENT == 0
      ensures Valid() && psize == size && live == map[] && owned == map[p := Chunk(size, InBlock(0))]
    {
      psize, max := size, if size - HEAD < MAX_ALLOC then size - HEAD else MAX_ALLOC;
      blocks, current, large := [Block(p, p + HEAD, p + size, 0)], 0, [];
      owned, live := map[p := Chunk(size, InBlock(0))], map[];
      new;
      assert BlockAt(View(), psize, 0);
    }

    // A block from which an allocation can be made
    ghost predicate HasRoom(b: Block, size: nat, aligned: bool) {
      (if aligned then Align(b.last) else b.last) + size <= b.end
    }

    // The loops of ngx_palloc and ngx_pnalloc: no new block is needed while one from `current` on has room.
    method Take(size: nat, aligned: bool, ghost id: Id) returns (m: int)
      requires Valid() && id !in live
      modifies `blocks, `live
      ensures Valid() && if m == 0 then View() == old(View()) else Gave(old(live), id, m, size)
      ensures m != 0 && aligned ==> m % ALIGNMENT == 0
      ensures m == 0 ==> forall i :: current <= i < |blocks| ==> !HasRoom(blocks[i], size, aligned)
    {
      var p := current;
      while p < |blocks|
        invariant p <= |blocks| && View() == old(View()) && forall i :: current <= i < p ==>
          !HasRoom(blocks[i], size, aligned)
      {
        RoomIsRight(View(), psize, p, aligned);
        assert BlockAt(View(), psize, p);
        m := if aligned then Align(blocks[p].last) else blocks[p].last;
        AlignUp(blocks[p].last);
        if SizeT(blocks[p].end - m) >= size {
          BumpedInv(View(), psize, p, m, size, id);
          blocks := blocks[p := blocks[p].(last := m + size)];
          live := live[id := Live(m, m + size, InBlock(p))];
          return;
        }
        p := p + 1;
      }
      m := 0;
    }

    // What a successful allocation does: one more user, with the memory it asked for
    ghost predicate Gave(was: map<Id, Live>, id: Id, m: int, size: nat)
      reads this
    {
      m > 0 && id in live && live == was[id := live[id]] && live[id].lo == m && live[id].hi == m + size
    }

    // ngx_palloc_block; `chunk` is what the system answers
    method PallocBlock(size: nat, chunk: int, ghost id: Id) returns (m: int)
      requires Valid() && size <= max && id !in live && (chunk != 0 ==> Fresh(View(), chunk, psize) && chunk % 16 == 0)
      modifies this
      ensures Valid() && large == old(large) && (m == 0 <==> chunk == 0)
      ensures if m == 0 then View() == old(View())
              else Gave(old(live), id, m, size) && m % ALIGNMENT == 0 &&
                   chunk in owned && owned[chunk].size == psize && owned == old(owned)[chunk := owned[chunk]]
    {
      if chunk == 0 {
        return 0;
      }
      ChainedInv(View(), psize, chunk);
      m := chunk + DATA;
      AlignLeast(m, m);
      AlignUp(m);
      m := Align(m);
      Retry();
      ghost var i := |blocks|;
      ghost var s := Chained(View(), psize, chunk);
      blocks := blocks + [Block(chunk, m + size, chunk + psize, 0)];
      owned := owned[chunk := Chunk(psize, InBlock(i))];
      live := live[id := Live(m, m + size, InBlock(i))];
      ChainedInv(old(View()).(blocks := s.blocks[..i], current := s.current), psize, chunk);
      BumpedInv(s, psize, i, m, size, id);
      assert View() == Bumped(s, i, m, size, id);
    }

    // Blocks that failed too often are passed over from now on.
    method Retry()
      requires Valid()
      modifies `blocks, `current
      ensures Valid() && SameButFailed(old(blocks), blocks)
    {
      var p: nat, cur: nat := current, current;
      while p + 1 < |blocks|
        invariant p < |blocks| && cur < |blocks| && SameButFailed(old(blocks), blocks) && current == old(current)
      {
        if blocks[p].failed > 4 {
          cur := p + 1;
        }
        blocks := blocks[p := blocks[p].(failed := blocks[p].failed + 1)];
        p := p + 1;
      }
      current := cur;
      SameButFailedInv(old(View()), View(), psize);
    }

    // ngx_palloc and, unaligned, ngx_pnalloc of what fits in a block
    method Palloc(size: nat, aligned: bool, chunk: int, ghost id: Id) returns (m: int)
      requires Valid() && size <= max && id !in live && (chunk != 0 ==> Fresh(View(), chunk, psize) && chunk % 16 == 0)
      modifies this
      ensures Valid() && large == old(large) && (m == 0 ==> chunk == 0 && View() == old(View()))
      ensures m != 0 ==> Gave(old(live), id, m, size) && (aligned ==> m % ALIGNMENT == 0)
      ensures owned == old(owned) || (chunk in owned && owned[chunk].size == psize &&
        owned == old(owned)[chunk := owned[chunk]])
    {
      m := Take(size, aligned, id);
      if m == 0 {
        m := PallocBlock(size, chunk, id);
      }
    }

    // ngx_palloc_large: `p` and `chunk` are what the system answers for the memory and for a block to hold its record
    method PallocLarge(size: nat, p: int, chunk: int, ghost id: Id, ghost rec: Id) returns (m: int)
      requires Valid() && size > max && id !in live && rec !in live && id != rec
      requires p != 0 ==> Fresh(View(), p, size)
      requires chunk != 0 ==>
        Fresh(View(), chunk, psize) && chunk % 16 == 0 && (p != 0 ==> p != chunk && Disjoint(p, size, chunk, psize))
      modifies this
      ensures Valid() && (m == 0 ==> p == 0 || chunk == 0) && (m == 0 ==> View() == old(View()))
      ensures m != 0 ==>
        m == p && id in live && live[id].lo == m && live[id].hi == m + size &&
        (live == old(live)[id := live[id]] || (rec in live && live == old(live)[rec := live[rec]][id := live[id]]))
    {
      if p == 0 {
        return 0;
      }
      var k := Vacant();
      if k < |large| {
        EnlargedInv(View(), psize, k, p, size, id);
        large := large[k := Large(p, size)];
        owned, live := owned[p := Chunk(size, InLarge(k))], live[id := Live(p, p + size, InLarge(k))];
        return p;
      }
      var r := Palloc(LARGE, true, chunk, rec);
      if r == 0 {
        return 0;
      }
      EnlargedInv(View(), psize, |large|, p, size, id);
      owned, live := owned[p := Chunk(size, InLarge(|large|))], live[id := Live(p, p + size, InLarge(|large|))];
      large := large + [Large(p, size)];
      m := p;
    }

    // A record that is free, among the first ones of the list, or the length of the list
    method Vacant() returns (k: nat)
      ensures k <= |large| && (k < |large| ==> large[k].alloc == 0)
    {
      var i, n := |large|, 0;
      while i > 0
        invariant 0 <= i <= |large|
      {
        i := i - 1;
        if large[i].alloc == 0 {
          return i;
        }
        if n > 3 {
          break;
        }
        n := n + 1;
      }
      k := |large|;
    }

    // ngx_pfree
    method Pfree(p: int) returns (ok: bool)
      requires Valid() && p != 0
      modifies `large, `owned, `live
      ensures Valid()
      ensures ok <==> exists k :: 0 <= k < |old(large)| && old(large)[k].alloc == p
      ensures ok ==> p in old(owned) && owned == old(owned) - {p} && live.Keys <= old(live).Keys
      ensures ok ==> forall x :: x in old(live) && !(old(live)[x].home.InLarge? && old(live)[x].lo == p) ==>
        x in live && live[x] == old(live)[x]
      ensures !ok ==> View() == old(View())
    {
      var i := |large|;
      while i > 0
        invariant 0 <= i <= |large| && View() == old(View()) && forall k :: i <= k < |large| ==> large[k].alloc != p
      {
        i := i - 1;
        if large[i].alloc == p {
          forall x | x in live && live[x].home == InLarge(i) ensures live[x].lo == p { assert LiveAt(View(), x); }
          Release(i);
          return true;
        }
      }
      ok := false;
    }

    method Release(k: nat)
      requires Valid() && k < |large| && large[k].alloc != 0
      modifies `large, `owned, `live
      ensures Valid() && large == old(large)[k := Large(0, 0)] && old(large[k].alloc) in old(owned) &&
        owned == old(owned) - {old(large[k].alloc)}
      ensures live.Keys <= old(live).Keys && forall x :: x in old(live) && old(live)[x].home != InLarge(k) ==>
        x in live && live[x] == old(live)[x]
    {
      FreedInv(View(), psize, k);
      live := map x | x in live && live[x].home != InLarge(k) :: live[x];
      owned := owned - {large[k].alloc};
      large := large[k := Large(0, 0)];
    }

    // ngx_palloc of any size; `p` and `chunk` as for ngx_palloc_large
    method Get(size: nat, p: int, chunk: int, ghost id: Id, ghost rec: Id) returns (m: int)
      requires Valid() && id !in live && rec !in live && id != rec && (p != 0 ==> Fresh(View(), p, size))
      requires chunk != 0 ==>
        Fresh(View(), chunk, psize) && chunk % 16 == 0 && (p != 0 ==> p != chunk && Disjoint(p, size, chunk, psize))
      modifies this
      ensures Valid() && (m == 0 ==> View() == old(View()) && (p == 0 || chunk == 0))
      ensures m != 0 ==> id in live && live[id].lo == m && live[id].hi == m + size && Kept(old(live), id, rec)
    {
      if size <= max {
        m := Palloc(size, true, chunk, id);
      } else {
        m := PallocLarge(size, p, chunk, id, rec);
      }
    }

    // Nobody else's memory has changed.
    ghost predicate Kept(was: map<Id, Live>, id: Id, rec: Id)
      reads this
    {
      (forall x :: x in was ==> x in live && live[x] == was[x]) && forall x :: x in live ==>
        x in was || x == id || x == rec
    }

    // ngx_free: only of what the system gave and has not got back
    ghost method Free(p: int)
      requires p in owned
      modifies `owned
      ensures owned == old(owned) - {p}
    {
      owned := owned - {p};
    }

    // ngx_destroy_pool: everything goes back to the system, each piece once
    method Destroy()
      requires Valid()
      modifies `owned
      ensures owned == map[]
    {
      ghost var s := View();
      OwnedHomes(s, psize);
      var i := |large|;
      while i > 0
        invariant 0 <= i <= |large|
        invariant forall a :: a in owned <==> a in s.owned && (s.owned[a].home.InBlock? || s.owned[a].home.k < i)
      {
        i := i - 1;
        assert LargeAt(s, i);
        if large[i].alloc != 0 {
          Free(large[i].alloc);
        }
      }
      var j := 0;
      while j < |blocks|
        invariant 0 <= j <= |blocks|
        invariant forall a :: a in owned <==> a in s.owned && s.owned[a].home.InBlock? && s.owned[a].home.i >= j
      {
        assert BlockAt(s, psize, j);
        Free(blocks[j].start);
        j := j + 1;
      }
      forall a ensures a !in owned { assert a in s.owned && s.owned[a].home.InBlock? ==>
        s.owned[a].home.i < |s.blocks|; }
      assert owned.Keys == {};
    }
  }

  function ByteAfter(bytes: int -> int, dst: int, src: int, n: nat, a: int): int {
    if dst <= a < dst + n then bytes(a - dst + src) else bytes(a)
  }

  // ngx_memcpy, whose source and destination must not overlap
  function Memcpy(bytes: int -> int, dst: int, src: int, n: nat): int -> int
    requires Disjoint(dst, n, src, n)
  {
    a => ByteAfter(bytes, dst, src, n, a)
  }

  // Stands for any address in what follows.
  predicate Spot(a: int) {
    true
  }

  // The n bytes that were at `src` are at `dst`, and the memory of other users than x is theirs as before and holds
  // what it held.
  ghost predicate Preserved(old': map<Id, Live>, was: int -> int, live: map<Id, Live>, bytes: int -> int, x: Id,
      src: int, dst: int, n: nat) {
    && (forall a {:trigger Spot(a)} :: Spot(a) && dst <= a < dst + n ==> bytes(a) == was(a - dst + src))
    && (forall y, a {:trigger Spot(a), old'[y]} :: Spot(a) && y in old' && y != x && old'[y].lo <= a < old'[y].hi ==>
       bytes(a) == was(a))
    && (forall y {:trigger old'[y]} :: y in old' && y != x ==> y in live && live[y] == old'[y])
  }

  lemma Unmoved(old': map<Id, Live>, live: map<Id, Live>, bytes: int -> int, x: Id, src: int, n: nat)
    requires x in live && live == old'[x := live[x]]
    ensures Preserved(old', bytes, live, bytes, x, src, src, n)
  {}

  // None of the users there were has a byte of what lies from dst up to dst + n.
  ghost predicate Apart(old': map<Id, Live>, dst: int, n: nat) {
    forall z {:trigger old'[z]} :: z in old' ==>
      n == 0 || old'[z].lo == old'[z].hi || old'[z].hi <= dst || dst + n <= old'[z].lo
  }

  lemma NewApart(old': map<Id, Live>, s: State, psize: nat, y: Id, n: nat)
    requires Inv(s, psize) && y in s.live && y !in old' && n <= s.live[y].hi - s.live[y].lo
    requires forall z :: z in old' ==> z in s.live && s.live[z] == old'[z]
    ensures Apart(old', s.live[y].lo, n)
  {
    forall z | z in old' ensures n == 0 || old'[z].lo == old'[z].hi || old'[z].hi <= s.live[y].lo ||
      s.live[y].lo + n <= old'[z].lo {
      assert LiveApart(s, z, y) && LiveAt(s, z);
    }
  }

  // What the copy of n bytes does to the byte at each address
  ghost predicate Copies(bytes: int -> int, m: int -> int, dst: int, src: int, n: nat) {
    forall a {:trigger Spot(a)} :: Spot(a) ==> m(a) == ByteAfter(bytes, dst, src, n, a)
  }

  lemma MemcpyCopies(bytes: int -> int, dst: int, src: int, n: nat)
    requires Disjoint(dst, n, src, n)
    ensures Copies(bytes, Memcpy(bytes, dst, src, n), dst, src, n)
  {
    var m := Memcpy(bytes, dst, src, n);
    forall a | Spot(a) ensures m(a) == ByteAfter(bytes, dst, src, n, a) {}
  }

  // The copy of an array's elements to new memory preserves all this.
  lemma Copied(old': map<Id, Live>, live: map<Id, Live>, x: Id, dst: int, bytes: int -> int, m: int -> int, n: nat)
    requires x in old' && n <= old'[x].hi - old'[x].lo && Apart(old', dst, n) && Copies(bytes, m, dst, old'[x].lo, n)
    requires forall z :: z in old' ==> z in live && live[z] == old'[z]
    ensures Preserved(old', bytes, live, m, x, old'[x].lo, dst, n)
  {
    forall y, a | y in old' && Spot(a) && old'[y].lo <= a < old'[y].hi ensures m(a) == bytes(a) {
      NotCopiedTo(old', dst, n, y, a);
    }
  }

  lemma NotCopiedTo(old': map<Id, Live>, dst: int, n: nat, y: Id, a: int)
    requires Apart(old', dst, n) && y in old'
    ensures old'[y].lo <= a < old'[y].hi ==> !(dst <= a < dst + n)
    ensures n <= old'[y].hi - old'[y].lo ==> Disjoint(dst, n, old'[y].lo, n)
  {}

  lemma ElementsCopied(old': map<Id, Live>, s: State, psize: nat, x: Id, y: Id, bytes: int -> int, n: nat)
    requires Inv(s, psize) && x in old' && y in s.live && y !in old' && n <= old'[x].hi - old'[x].lo &&
      n <= s.live[y].hi - s.live[y].lo
    requires forall z :: z in old' ==> z in s.live && s.live[z] == old'[z]
    ensures Disjoint(s.live[y].lo, n, old'[x].lo, n)
    ensures Preserved(old', bytes, s.live, Memcpy(bytes, s.live[y].lo, old'[x].lo, n), x, old'[x].lo, s.live[y].lo, n)
  {
    var dst, src := s.live[y].lo, old'[x].lo;
    NewApart(old', s, psize, y, n);
    NotCopiedTo(old', dst, n, x, src);
    MemcpyCopies(bytes, dst, src, n);
    Copied(old', s.live, x, dst, bytes, Memcpy(bytes, dst, src, n), n);
  }

  // ngx_array_t: elements in memory of the pool; `bytes` is what memory holds.
  class Array {
    const pool: Arena
    const size: nat
    var elts: int
    var nelts: nat
    var nalloc: nat
    var bytes: int -> int
    ghost var id: Id

    // The elements are in memory that only this array has.
    ghost predicate Valid()
      reads this, pool
    {
      pool.Valid() && id in pool.live && pool.live[id].lo == elts && pool.live[id].hi == elts + size * nalloc &&
        nelts <= nalloc
    }

    // ngx_array_init
    constructor (pool: Arena, n: nat, size: nat, elts: int, bytes: int -> int, ghost id: Id)
      requires pool.Valid() && id in pool.live && pool.live[id].lo == elts && pool.live[id].hi == elts + size * n
      ensures Valid() && this.pool == pool && this.size == size && nelts == 0 && nalloc == n && this.bytes == bytes
    {
      this.pool, this.size, this.elts, nelts, nalloc, this.bytes, this.id := pool, size, elts, 0, n, bytes, id;
    }

    // The elements there were are still in the array, and other users' memory is as it was.
    twostate predicate Kept()
      reads this, pool
    {
      Preserved(old(pool.live), old(bytes), pool.live, bytes, old(id), old(elts), elts, old(size * nelts))
    }

    // The array is the last allocation of the pool's first block, and there is room for more behind it.
    predicate CanGrow(more: nat)
      reads this, pool
    {
      pool.blocks != [] && elts + size * nalloc == pool.blocks[0].last &&
        pool.blocks[0].last + more <= pool.blocks[0].end
    }

    // ngx_array_push.  An array without room for any element, which cannot grow in place, is moved to memory for no
    // element; else the new element is in the array's memory, behind the others.
    method Push(p: int, chunk: int, ghost newId: Id, ghost rec: Id) returns (elt: int)
      requires Valid() && newId !in pool.live && rec !in pool.live && newId != rec &&
        (p != 0 ==> Fresh(pool.View(), p, 2 * nalloc * size))
      requires chunk != 0 ==>
        Fresh(pool.View(), chunk, pool.psize) && chunk % 16 == 0 &&
        (p != 0 ==> p != chunk && Disjoint(p, 2 * nalloc * size, chunk, pool.psize))
      modifies this, pool
      ensures pool.Valid() && (elt == 0 ==> Valid() && nelts == old(nelts) && (p == 0 || chunk == 0))
      ensures elt != 0 ==> nelts == old(nelts) + 1 && elt == elts + size * old(nelts)
      ensures elt != 0 ==> (Valid() <==> old(nalloc) > 0 || old(CanGrow(size)))
      ensures Kept()
    {
      Unmoved(pool.live, pool.live, bytes, id, elts, size * nelts);
      if nelts == nalloc {
        if CanGrow(size) {
          Grow(1);
        } else {
          var ok := Move(2 * nalloc, p, chunk, newId, rec);
          if !ok {
            return 0;
          }
        }
      }
      LivePositive(pool.View(), pool.psize, id);
      elt := elts + size * nelts;
      nelts := nelts + 1;
    }

    // ngx_array_push_n: n elements at once, always in the array's memory
    method PushN(n: nat, p: int, chunk: int, ghost newId: Id, ghost rec: Id) returns (elt: int)
      requires Valid() && newId !in pool.live && rec !in pool.live && newId != rec &&
        (p != 0 ==> Fresh(pool.View(), p, Doubled(n) * size))
      requires chunk != 0 ==>
        Fresh(pool.View(), chunk, pool.psize) && chunk % 16 == 0 &&
        (p != 0 ==> p != chunk && Disjoint(p, Doubled(n) * size, chunk, pool.psize))
      modifies this, pool
      ensures Valid() && nelts == old(nelts) + (if elt == 0 then 0 else n) && (elt == 0 ==> p == 0 || chunk == 0)
      ensures elt != 0 ==> elt == elts + size * old(nelts)
      ensures Kept()
    {
      Unmoved(pool.live, pool.live, bytes, id, elts, size * nelts);
      if nelts + n > nalloc {
        if CanGrow(n * size) {
          Grow(n);
        } else {
          var ok := Move(Doubled(n), p, chunk, newId, rec);
          if !ok {
            return 0;
          }
        }
      }
      elt := Append(n);
    }

    method Append(n: nat) returns (elt: int)
      requires Valid() && nelts + n <= nalloc
      modifies `nelts
      ensures Valid() && elt == elts + size * old(nelts) && elt > 0 && nelts == old(nelts) + n && elts == old(elts)
    {
      LivePositive(pool.View(), pool.psize, id);
      elt := elts + size * nelts;
      nelts := nelts + n;
    }

    function Doubled(n: nat): nat
      reads this
    {
      2 * if n >= nalloc then n else nalloc
    }

    // In place, for n more elements
    method Grow(n: nat)
      requires Valid() && CanGrow(n * size)
      modifies `nalloc, pool
      ensures Valid() && nalloc == old(nalloc) + n && Kept()
    {
      GrownInv(pool.View(), pool.psize, id, n * size);
      pool.blocks := pool.blocks[0 := pool.blocks[0].(last := pool.blocks[0].last + n * size)];
      pool.live := pool.live[id := pool.live[id].(hi := pool.live[id].hi + n * size)];
      nalloc := nalloc + n;
      assert size * nalloc == size * old(nalloc) + n * size;
      Unmoved(old(pool.live), pool.live, bytes, id, elts, size * nelts);
    }

    // To memory for n elements, to which the elements are copied.  The old memory stays with the pool.
    method Move(n: nat, p: int, chunk: int, ghost newId: Id, ghost rec: Id) returns (ok: bool)
      requires Valid() && newId !in pool.live && rec !in pool.live && newId != rec &&
        (p != 0 ==> Fresh(pool.View(), p, n * size)) && nelts <= n
      requires chunk != 0 ==>
        Fresh(pool.View(), chunk, pool.psize) && chunk % 16 == 0 &&
        (p != 0 ==> p != chunk && Disjoint(p, n * size, chunk, pool.psize))
      modifies `elts, `nalloc, `bytes, `id, pool
      ensures pool.Valid() && Kept()
      ensures if ok then id in pool.live && pool.live[id].lo == elts && pool.live[id].hi == elts + size * n &&
        nalloc == n
              else Valid() && nalloc == old(nalloc) && elts == old(elts) && (p == 0 || chunk == 0)
    {
      var memory := pool.Get(n * size, p, chunk, newId, rec);
      if memory == 0 {
        Unmoved(pool.live, pool.live, bytes, id, elts, size * nelts);
        return false;
      }
      LongEnough(size, nelts, nalloc);
      LongEnough(size, nelts, n);
      ElementsCopied(old(pool.live), pool.View(), pool.psize, id, newId, bytes, size * nelts);
      bytes := Memcpy(bytes, memory, elts, size * nelts);
      elts, nalloc, id := memory, n, newId;
      ok := true;
    }
  }

  lemma LongEnough(size: nat, a: nat, b: nat)
    requires a <= b
    ensures a * size == size * a <= size * b == b * size
  {}

  // An array with no room for any element, and elements too long for the block behind it: the pushed element is not in
  // the array's memory.
  method PushedOutside(bytes: int -> int) returns (a: Array, elt: int)
    ensures elt != 0 && !a.Valid()
  {
    var pool := new Arena(4096, 4096);
    var m := pool.Palloc(0, true, 8192, 0);
    a := new Array(pool, 0, 5000, m, bytes, 0);
    assert BlockAt(pool.View(), 4096, 0);
    elt := a.Push(16384, 20480, 1, 2);
  }
}
