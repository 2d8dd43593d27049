/** How ngx_slab.c packs the state of SlabPool into 64-bit words: the length of a run and its kind into one descriptor
    field, the shift and the map of a big page into the same field, the map of an exact page into it too, the map of a
    small page into words at the start of the page, and the page type into the low bits of prev.  Each operation on the
    words is the operation of SlabPool on what they stand for. */
module SlabWords {
  import opened Basics
  import opened SlabPool

  // A machine word by its bits, the lowest first
  type U64 = w: seq<bool> | |w| == 64 witness seq(64, _ => false)

  function Or(a: U64, b: U64): U64 {
    seq(64, i requires 0 <= i < 64 => a[i] || b[i])
  }

  function And(a: U64, b: U64): U64 {
    seq(64, i requires 0 <= i < 64 => a[i] && b[i])
  }

  function Not(a: U64): U64 {
    seq(64, i requires 0 <= i < 64 => !a[i])
  }

  // w << k
  function Shl(w: U64, k: nat): U64 {
    seq(64, i requires 0 <= i < 64 => i >= k && w[i - k])
  }

  // 1 << i
  function Mask(i: nat): U64 {
    seq(64, k => k == i)
  }

  function Zero(): U64 {
    seq(64, _ => false)
  }

  // NGX_SLAB_BUSY and NGX_SLAB_PAGE_BUSY
  function Ones(): U64 {
    seq(64, _ => true)
  }

  // ((1 << n) - 1) << k
  function Field(k: nat, n: nat): U64 {
    seq(64, i => k <= i < k + n)
  }

  lemma ShlMask(i: nat)
    ensures Shl(Mask(i), 1) == if i < 63 then Mask(i + 1) else Zero()
  {}

  lemma MaskBit(w: U64, i: nat)
    requires i < 64
    ensures (And(w, Mask(i)) != Zero() <==> w[i]) && Or(w, Mask(i)) == w[i := true] &&
      And(w, Not(Mask(i))) == w[i := false]
  {
    assert And(w, Mask(i))[i] == w[i];
    assert !w[i] ==> And(w, Mask(i)) == Zero();
  }

  lemma NotOnes(w: U64)
    ensures w != Ones() <==> HasFree(w)
  {
    if forall i :: 0 <= i < 64 ==> w[i] {
      assert w == Ones();
    }
  }

  lemma NotZero(w: U64)
    ensures w != Zero() <==> HasLive(w, 0)
  {
    if forall i :: 0 <= i < 64 ==> !w[i] {
      assert w == Zero();
    }
  }

  // ---- numbers ----

  function Value(w: seq<bool>): nat {
    if w == [] then 0 else (if w[0] then 1 else 0) + 2 * Value(w[1..])
  }

  function OfNat(k: nat, n: nat): (w: seq<bool>)
    ensures |w| == n
  {
    if n == 0 then [] else [k % 2 == 1] + OfNat(k / 2, n - 1)
  }

  lemma {:induction false} ValueOfNat(k: nat, n: nat)
    requires k < Pow2(n)
    ensures Value(OfNat(k, n)) == k
    decreases n
  {
    if n > 0 {
      ValueOfNat(k / 2, n - 1);
      assert OfNat(k, n)[1..] == OfNat(k / 2, n - 1);
    }
  }

  lemma {:induction false} OfNatValue(w: seq<bool>)
    ensures OfNat(Value(w), |w|) == w
  {
    if w != [] { OfNatValue(w[1..]); }
  }

  lemma {:induction false} ValueBelow(w: seq<bool>)
    ensures Value(w) < Pow2(|w|)
  {
    if w != [] { ValueBelow(w[1..]); }
  }

  lemma {:induction false} ValueZero(w: seq<bool>)
    ensures Value(w) == 0 <==> forall i :: 0 <= i < |w| ==> !w[i]
  {
    if w != [] {
      ValueZero(w[1..]);
      assert forall i :: 0 < i < |w| ==> w[i] == w[1..][i - 1];
    }
  }

  // The highest bit counts for itself.
  lemma {:induction false} ValueTop(w: seq<bool>)
    requires w != []
    ensures Value(w) == Value(w[..|w| - 1]) + if w[|w| - 1] then Pow2(|w| - 1) else 0
  {
    if |w| > 1 {
      ValueTop(w[1..]);
      assert w[1..][..|w| - 2] == w[..|w| - 1][1..];
    }
  }

  // The lower bits of a number that fits them are the number, and the others are clear.
  lemma {:induction false} OfNatFits(k: nat, n: nat, m: nat)
    requires m <= n && k < Pow2(m)
    ensures Value(OfNat(k, n)[..m]) == k && forall i :: m <= i < n ==> !OfNat(k, n)[i]
    decreases n
  {
    var w := OfNat(k, n);
    if m > 0 {
      OfNatFits(k / 2, n - 1, m - 1);
      assert w[..m][1..] == OfNat(k / 2, n - 1)[..m - 1];
      assert forall i :: m <= i < n ==> w[i] == OfNat(k / 2, n - 1)[i - 1];
    } else if n > 0 {
      OfNatFits(0, n - 1, 0);
      assert forall i :: 1 <= i < n ==> w[i] == OfNat(0, n - 1)[i - 1];
    }
  }

  lemma Twice(a: int, b: int)
    ensures a * (2 * b) == 2 * (a * b)
  {}

  // Field is the number the source writes.
  lemma {:induction false} ValueField(w: seq<bool>, k: nat, n: nat)
    requires k + n <= |w| && forall i :: 0 <= i < |w| ==> w[i] == (k <= i < k + n)
    ensures Value(w) == (Pow2(n) - 1) * Pow2(k)
    decreases w
  {
    if k > 0 {
      ValueField(w[1..], k - 1, n);
      Twice(Pow2(n) - 1, Pow2(k - 1));
    } else if n > 0 {
      ValueField(w[1..], 0, n - 1);
    } else {
      ValueZero(w);
    }
  }

  // Subtraction of words
  function Sub(a: U64, b: U64): U64 {
    ValueBelow(b);
    OfNat(if Value(a) < Value(b) then Value(a) + Pow2(64) - Value(b) else Value(a) - Value(b), 64)
  }

  // ---- descriptors ----

  // page->slab, page->next, page->prev and the words at the start of the page
  datatype Desc = Desc(slab: U64, next: U64, prev: U64, bitmap: seq<U64>) {
    // page->prev & NGX_SLAB_PAGE_MASK
    function Kind(): Tag {
      if prev[1] then if prev[0] then Small else Exact else if prev[0] then Big else PageTag
    }

    // page->prev & ~NGX_SLAB_PAGE_MASK
    function Link(): U64 {
      And(prev, Not(Field(0, 2)))
    }
  }

  // NGX_SLAB_PAGE, NGX_SLAB_BIG, NGX_SLAB_EXACT, NGX_SLAB_SMALL
  function TagWord(t: Tag): U64 {
    match t
    case PageTag => Zero()
    case Big => Mask(0)
    case Exact => Mask(1)
    case Small => Field(0, 2)
  }

  // The address of a descriptor or list header with a type in its low bits: both are read back.
  function SetPrev(d: Desc, link: U64, t: Tag): (r: Desc)
    requires !link[0] && !link[1]
    ensures r.Kind() == t && r.Link() == link && r == d.(prev := r.prev)
  {
    d.(prev := Or(link, TagWord(t)))
  }

  // NGX_SLAB_PAGE_START
  function Start(): U64 {
    Mask(63)
  }

  // The shift of a slab page
  function ShiftOf(d: Desc): nat {
    if d.Kind() == Exact then EXACT_SHIFT else Value(d.slab[..4])
  }

  // What page->slab says
  function WordOf(d: Desc): Word {
    if d.Kind() != PageTag then Layout(ShiftOf(d))
    else if d.slab == Ones() then PageBusy
    else if And(d.slab, Start()) != Zero() then Started(Value(And(d.slab, Not(Start()))))
    else Count(Value(d.slab))
  }

  function Flat(ws: seq<U64>): (u: seq<bool>)
    ensures |u| == 64 * |ws|
  {
    if ws == [] then [] else ws[0] + Flat(ws[1..])
  }

  // A slab page has a map for its shift; the rest of the word of a big page is empty.
  ghost predicate Sound(d: Desc) {
    && (d.Kind() == Small ==> MIN_SHIFT <= ShiftOf(d) < EXACT_SHIFT && 64 * |d.bitmap| == Chunks(ShiftOf(d)))
    && (d.Kind() == Big ==> EXACT_SHIFT < ShiftOf(d) < PAGE_SHIFT && ClearFrom(d.slab, 32 + Chunks(ShiftOf(d))))
  }

  ghost predicate ClearFrom(w: U64, k: nat) {
    forall i :: k <= i < 64 ==> !w[i]
  }

  // Which chunks are in use
  ghost function UsedOf(d: Desc): seq<bool>
    requires Sound(d)
  {
    if d.Kind() == PageTag then [] else if d.Kind() == Small then Flat(d.bitmap) else if d.Kind() == Exact then d.slab
    else d.slab[32..32 + Chunks(ShiftOf(d))]
  }

  // A slab page has a successor in a list, and be it the header of its slot, if and only if it has a free chunk.
  ghost predicate Tied(d: Desc)
    requires Sound(d)
  {
    d.next != Zero() <==> HasFree(UsedOf(d))
  }

  ghost predicate Lowest(u: seq<bool>, j: nat) {
    j < |u| && !u[j] && forall k :: 0 <= k < j ==> u[k]
  }

  // ---- the maps: scan and set, test and clear ----

  lemma {:induction false} FlatAt(ws: seq<U64>, n: nat, i: nat)
    requires n < |ws| && i < 64
    ensures Flat(ws)[n * 64 + i] == ws[n][i]
  {
    if n > 0 {
      FlatAt(ws[1..], n - 1, i);
    }
  }

  lemma FlatSet(ws: seq<U64>, n: nat, i: nat, x: bool)
    requires n < |ws| && i < 64
    ensures Flat(ws[n := ws[n][i := x]]) == Flat(ws)[n * 64 + i := x]
  {
    var vs, a, b := ws[n := ws[n][i := x]], Flat(ws[n := ws[n][i := x]]), Flat(ws)[n * 64 + i := x];
    forall k | 0 <= k < |a| ensures a[k] == b[k] {
      Split64(k, n, i);
      FlatAt(vs, k / 64, k % 64);
      FlatAt(ws, k / 64, k % 64);
    }
  }

  lemma Split64(k: nat, n: nat, i: nat)
    requires i < 64
    ensures k / 64 * 64 + k % 64 == k && (k == n * 64 + i <==> k / 64 == n && k % 64 == i)
  {}

  lemma Before64(k: nat, n: nat, i: nat)
    requires k < n * 64 + i && i < 64
    ensures k / 64 * 64 + k % 64 == k && (k / 64 < n || (k / 64 == n && k % 64 < i))
  {}

  // The search for a free chunk in one word: for (m = 1, i = 0; m; m <<= 1, i++)
  method ScanWord(w: U64) returns (i: nat, r: U64)
    requires w != Ones()
    ensures Lowest(w, i) && r == w[i := true]
  {
    var m := Mask(0);
    i := 0;
    NotOnes(w);
    ghost var z :| 0 <= z < 64 && !w[z];
    while m != Zero() && And(w, m) != Zero()
      invariant i <= z && m == Mask(i) && forall k :: 0 <= k < i ==> w[k]
      decreases 64 - i
    {
      WordProbe(w, i);
      m, i := Shl(m, 1), i + 1;
    }
    WordProbe(w, i);
    r := Or(w, m);
  }

  lemma WordProbe(w: U64, i: nat)
    requires i < 64
    ensures Mask(i) != Zero() && (And(w, Mask(i)) != Zero() <==> w[i]) && Or(w, Mask(i)) == w[i := true]
    ensures i < 63 ==> Shl(Mask(i), 1) == Mask(i + 1)
  {
    assert Mask(i)[i];
    MaskBit(w, i);
    ShlMask(i);
  }

  predicate Busy(w: U64) {
    w == Ones()
  }

  predicate Empty(w: U64) {
    w == Zero()
  }

  ghost predicate AllBusy(ws: seq<U64>, n: nat) {
    n <= |ws| && forall k :: 0 <= k < n ==> Busy(ws[k])
  }

  // In the words of a small page
  method TakeSmall(bitmap: seq<U64>) returns (j: nat, next: seq<U64>, full: bool)
    requires HasFree(Flat(bitmap))
    ensures Lowest(Flat(bitmap), j) && Flat(next) == Flat(bitmap)[j := true] && (full <==> !HasFree(Flat(next)))
  {
    var n := 0;
    AllOnes(bitmap);
    while n < |bitmap| && Busy(bitmap[n])
      invariant AllBusy(bitmap, n)
    {
      n := n + 1;
    }
    var i, w := ScanWord(bitmap[n]);
    next, j := bitmap[n := w], n * 64 + i;
    FlatSet(bitmap, n, i, true);
    LowestFlat(bitmap, n, i);
    full := Busy(w);
    assert next[n] == w;
    var k := n + 1;
    while full && k < |next|
      invariant n < k <= |next| && (full ==> AllBusy(next, k))
      invariant !full ==> exists h :: 0 <= h < |next| && !Busy(next[h])
    {
      full := Busy(next[k]);
      k := k + 1;
    }
    AllOnes(next);
  }

  lemma AllOnes(ws: seq<U64>)
    ensures HasFree(Flat(ws)) <==> exists h :: 0 <= h < |ws| && !Busy(ws[h])
  {
    if h :| 0 <= h < |ws| && !Busy(ws[h]) {
      NotOnes(ws[h]);
      var i :| 0 <= i < 64 && !ws[h][i];
      FlatAt(ws, h, i);
    }
    if j :| 0 <= j < |Flat(ws)| && !Flat(ws)[j] {
      Split64(j, 0, 0);
      FlatAt(ws, j / 64, j % 64);
      NotOnes(ws[j / 64]);
    }
  }

  lemma FlatBefore(ws: seq<U64>, n: nat, i: nat, k: nat)
    requires n < |ws| && AllBusy(ws, n) && Lowest(ws[n], i) && k < n * 64 + i
    ensures Flat(ws)[k]
  {
    Before64(k, n, i);
    FlatAt(ws, k / 64, k % 64);
    if k / 64 < n {
      NotOnes(ws[k / 64]);
      assert Busy(ws[k / 64]);
    }
  }

  lemma LowestFlat(ws: seq<U64>, n: nat, i: nat)
    requires n < |ws| && AllBusy(ws, n) && Lowest(ws[n], i)
    ensures Lowest(Flat(ws), n * 64 + i)
  {
    FlatAt(ws, n, i);
    forall k | 0 <= k < n * 64 + i ensures Flat(ws)[k] {
      FlatBefore(ws, n, i, k);
    }
  }

  // The test and the clearing of one bit
  method ClearWord(w: U64, i: nat) returns (inUse: bool, r: U64)
    requires i < 64
    ensures inUse == w[i] && r == if inUse then w[i := false] else w
  {
    MaskBit(w, i);
    inUse, r := And(w, Mask(i)) != Zero(), w;
    if inUse {
      r := And(w, Not(Mask(i)));
    }
  }

  // In the words of a small page, of whose chunks the first `reserved` are its own: `emptied` says that only those are
  // left.
  method DropSmall(bitmap: seq<U64>, j: nat, reserved: nat) returns (inUse: bool, next: seq<U64>, emptied: bool)
    requires j < 64 * |bitmap| && reserved < 64
    ensures inUse == Flat(bitmap)[j] && Flat(next) == (if inUse then Flat(bitmap)[j := false] else Flat(bitmap))
    ensures if inUse then emptied <==> !HasLive(Flat(next), reserved) else next == bitmap
  {
    var n, i := j / 64, j % 64;
    Split64(j, n, i);
    FlatAt(bitmap, n, i);
    var w;
    inUse, w := ClearWord(bitmap[n], i);
    next, emptied := bitmap, false;
    if inUse {
      next := bitmap[n := w];
      FlatSet(bitmap, n, i, false);
      emptied := OnlyReserved(next, reserved);
    }
  }

  // bitmap[0] & ~(((uintptr_t) 1 << n) - 1), and the other words
  method OnlyReserved(ws: seq<U64>, r: nat) returns (only: bool)
    requires ws != [] && r < 64
    ensures only <==> !HasLive(Flat(ws), r)
  {
    only := And(ws[0], Not(Field(0, r))) == Zero();
    HighBits(ws[0], r);
    var n := 1;
    while only && n < |ws|
      invariant 1 <= n <= |ws| && (only ==> !HasLive(ws[0], r) && forall h :: 1 <= h < n ==> Empty(ws[h]))
      invariant !only ==> HasLive(ws[0], r) || exists h :: 1 <= h < |ws| && !Empty(ws[h])
    {
      only := Empty(ws[n]);
      n := n + 1;
    }
    AnyLive(ws, r);
  }

  lemma HighBits(w: U64, r: nat)
    requires r < 64
    ensures And(w, Not(Field(0, r))) != Zero() <==> HasLive(w, r)
  {
    var v := And(w, Not(Field(0, r)));
    assert forall i :: 0 <= i < 64 ==> v[i] == (w[i] && i >= r);
    NotZero(v);
    if i :| r <= i < 64 && w[i] {
      assert v[i];
    }
  }

  lemma AnyLive(ws: seq<U64>, r: nat)
    requires ws != [] && r < 64
    ensures HasLive(Flat(ws), r) <==> HasLive(ws[0], r) || exists h :: 1 <= h < |ws| && !Empty(ws[h])
  {
    if i :| r <= i < 64 && ws[0][i] {
      FlatAt(ws, 0, i);
    }
    if h :| 1 <= h < |ws| && !Empty(ws[h]) {
      LiveWord(ws, h, r);
    }
    if j :| r <= j < |Flat(ws)| && Flat(ws)[j] {
      WordLive(ws, j);
    }
  }

  lemma LiveWord(ws: seq<U64>, h: nat, r: nat)
    requires 1 <= h < |ws| && !Empty(ws[h]) && r < 64
    ensures HasLive(Flat(ws), r)
  {
    NotZero(ws[h]);
    var i :| 0 <= i < 64 && ws[h][i];
    FlatAt(ws, h, i);
  }

  lemma WordLive(ws: seq<U64>, j: nat)
    requires j < 64 * |ws| && Flat(ws)[j]
    ensures j / 64 < |ws| && !Empty(ws[j / 64]) && (j < 64 ==> ws[0][j])
  {
    Split64(j, 0, 0);
    FlatAt(ws, j / 64, j % 64);
    NotZero(ws[j / 64]);
  }

  // A big page: m runs through the upper half, n is the number of its chunks.
  method TakeBig(slab: U64, n: nat) returns (j: nat, next: U64, full: bool)
    requires n <= 32 && ClearFrom(slab, 32 + n) && HasFree(slab[32..32 + n])
    ensures Lowest(slab[32..32 + n], j) && next == slab[32 + j := true] && (full <==> !HasFree(next[32..32 + n]))
  {
    var m;
    j, m := ScanBig(slab, n, slab[32..32 + n]);
    MaskBit(slab, 32 + j);
    next := Or(slab, m);
    full := And(next, Field(32, 32)) == Field(32, n);
    BigTaken(slab, n, j, next);
  }

  method ScanBig(slab: U64, n: nat, ghost u: seq<bool>) returns (j: nat, m: U64)
    requires n <= 32 && u == slab[32..32 + n] && HasFree(u)
    ensures Lowest(u, j) && m == Mask(32 + j)
  {
    m, j := Mask(32), 0;
    ghost var z :| 0 <= z < n && !u[z];
    while And(m, Field(32, n)) != Zero() && And(slab, m) != Zero()
      invariant j <= z && m == Mask(32 + j) && forall k :: 0 <= k < j ==> u[k]
      decreases n - j
    {
      BigProbe(slab, n, u, j);
      m, j := Shl(m, 1), j + 1;
    }
    BigProbe(slab, n, u, j);
  }

  lemma BigProbe(slab: U64, n: nat, u: seq<bool>, j: nat)
    requires j < n <= 32 && u == slab[32..32 + n]
    ensures And(Mask(32 + j), Field(32, n)) != Zero() && (And(slab, Mask(32 + j)) != Zero() <==> u[j])
    ensures j < 31 ==> Shl(Mask(32 + j), 1) == Mask(32 + (j + 1))
  {
    MaskIn(32 + j, 32, n);
    MaskBit(slab, 32 + j);
    ShlMask(32 + j);
  }

  lemma BigTaken(slab: U64, n: nat, j: nat, next: U64)
    requires j < n <= 32 && ClearFrom(slab, 32 + n) && next == slab[32 + j := true]
    ensures And(next, Field(32, 32)) == Field(32, n) <==> !HasFree(next[32..32 + n])
  {
    WholeField(next, n);
  }

  lemma MaskIn(i: nat, k: nat, n: nat)
    requires i < 64
    ensures And(Mask(i), Field(k, n)) != Zero() <==> k <= i < k + n
  {
    var v := And(Mask(i), Field(k, n));
    assert v[i] == (k <= i < k + n);
    assert !(k <= i < k + n) ==> v == Zero();
  }

  lemma WholeField(w: U64, n: nat)
    requires n <= 32 && ClearFrom(w, 32 + n)
    ensures And(w, Field(32, 32)) == Field(32, n) <==> !HasFree(w[32..32 + n])
  {
    var v := And(w, Field(32, 32));
    var u := w[32..32 + n];
    if k :| 0 <= k < n && !u[k] {
      assert v[32 + k] != Field(32, n)[32 + k];
    } else {
      assert forall i :: 32 <= i < 32 + n ==> w[i] == u[i - 32];
      assert v == Field(32, n);
    }
  }

  method DropBig(slab: U64, n: nat, j: nat) returns (inUse: bool, next: U64, emptied: bool)
    requires j < n <= 32 && ClearFrom(slab, 32 + n)
    ensures inUse == slab[32 + j] && next == (if inUse then slab[32 + j := false] else slab)
    ensures emptied <==> !HasLive(next[32..32 + n], 0)
  {
    inUse, next := ClearWord(slab, 32 + j);
    emptied := And(next, Field(32, 32)) == Zero();
    EmptyField(next, n);
  }

  lemma EmptyField(w: U64, n: nat)
    requires n <= 32 && ClearFrom(w, 32 + n)
    ensures And(w, Field(32, 32)) == Zero() <==> !HasLive(w[32..32 + n], 0)
  {
    var v := And(w, Field(32, 32));
    var u := w[32..32 + n];
    if k :| 0 <= k < n && u[k] {
      assert v[32 + k];
    } else {
      assert forall i :: 32 <= i < 32 + n ==> w[i] == u[i - 32];
      assert v == Zero();
    }
  }

  // ---- the operations on descriptors ----

  // The part of ngx_slab_alloc_locked that takes a chunk from a page: what the descriptor stands for changes by the
  // lowest free chunk, and a page whose last chunk it was is unlinked and keeps its type.
  method TakeChunk(d: Desc) returns (j: nat, next: Desc, full: bool)
    requires Sound(d) && Tied(d) && d.Kind() != PageTag && HasFree(UsedOf(d))
    ensures Sound(next) && Tied(next) && next.Kind() == d.Kind() && WordOf(next) == WordOf(d)
    ensures if full then next.next == next.Link() == Zero() else next.next == d.next && next.Link() == d.Link()
    ensures Lowest(UsedOf(d), j) && UsedOf(next) == UsedOf(d)[j := true] && (full <==> !HasFree(UsedOf(next)))
  {
    match d.Kind() {
      case Small =>
        var ws;
        j, ws, full := TakeSmall(d.bitmap);
        next := d.(bitmap := ws);
      case Exact =>
        NotOnes(d.slab);
        var w;
        j, w := ScanWord(d.slab);
        next, full := d.(slab := w), w == Ones();
        NotOnes(w);
      case Big =>
        var w;
        j, w, full := TakeBig(d.slab, Chunks(ShiftOf(d)));
        next := d.(slab := w);
        assert next.slab[..4] == d.slab[..4];
    }
    if full {
      next := SetPrev(next.(next := Zero()), Zero(), d.Kind());
    }
  }

  // The part of ngx_slab_free_locked that gives one back; `emptied` says that no chunk is left that a caller has.  A
  // page that was full goes to the front of the list of its slot, before `first`.
  method DropChunk(d: Desc, j: nat, first: U64, header: U64) returns (inUse: bool, next: Desc, emptied: bool)
    requires Sound(d) && Tied(d) && d.Kind() != PageTag && j < |UsedOf(d)|
    requires first != Zero() && !header[0] && !header[1]
    ensures Sound(next) && Tied(next) && next.Kind() == d.Kind() && WordOf(next) == WordOf(d)
    ensures inUse == UsedOf(d)[j] && UsedOf(next) == if inUse then UsedOf(d)[j := false] else UsedOf(d)
    ensures inUse ==> (emptied <==> !HasLive(UsedOf(next), Reserved(ShiftOf(d))))
    ensures if inUse && !HasFree(UsedOf(d)) then next.next == first && next.Link() == header
      else next.next == d.next && next.Link() == d.Link()
  {
    inUse, next, emptied := ClearChunk(d, j);
    if inUse {
      NotOnes(d.slab);
      assert HasFree(UsedOf(next)) by { assert !UsedOf(next)[j]; }
      var full := if d.Kind() == Exact then d.slab == Ones() else d.next == Zero();
      if full {
        next := SetPrev(next.(next := first), header, d.Kind());
      }
    }
  }

  method ClearChunk(d: Desc, j: nat) returns (inUse: bool, next: Desc, emptied: bool)
    requires Sound(d) && d.Kind() != PageTag && j < |UsedOf(d)|
    ensures Sound(next) && next == d.(slab := next.slab, bitmap := next.bitmap) && WordOf(next) == WordOf(d)
    ensures inUse == UsedOf(d)[j] && UsedOf(next) == if inUse then UsedOf(d)[j := false] else UsedOf(d)
    ensures !inUse ==> next == d
    ensures inUse ==> (emptied <==> !HasLive(UsedOf(next), Reserved(ShiftOf(d))))
  {
    match d.Kind()
    case Small =>
      var ws;
      inUse, ws, emptied := DropSmall(d.bitmap, j, Reserved(ShiftOf(d)));
      next := d.(bitmap := ws);
    case Exact =>
      var w;
      inUse, w := ClearWord(d.slab, j);
      next, emptied := d.(slab := w), w == Zero();
      NotZero(w);
    case Big =>
      var w;
      inUse, w, emptied := DropBig(d.slab, Chunks(ShiftOf(d)), j);
      next := d.(slab := w);
      assert next.slab[..4] == d.slab[..4];
  }

  // A page just cut up: the chunks of its own map and the one handed out are in use.
  ghost predicate JustCut(d: Desc, shift: nat) {
    && Sound(d) && d.Kind() == TagOf(shift) && WordOf(d) == Layout(shift) && |UsedOf(d)| == Chunks(shift)
    && forall j :: 0 <= j < |UsedOf(d)| ==> (UsedOf(d)[j] <==> j <= Reserved(shift))
  }

  // The page that ngx_slab_alloc_locked cuts up and links to the header of its slot
  method NewPage(shift: nat, header: U64) returns (d: Desc)
    requires MIN_SHIFT <= shift < PAGE_SHIFT && !header[0] && !header[1] && header != Zero()
    ensures JustCut(d, shift) && d.next == d.Link() == header && Tied(d)
  {
    d := SetPrev(Desc(OfNat(shift, 64), header, Zero(), []), header, TagOf(shift));
    if shift < EXACT_SHIFT {
      var ws := NewMap(Chunks(shift) / 64, Reserved(shift));
      d := d.(bitmap := ws);
      CutSmall(d, shift);
    } else if shift == EXACT_SHIFT {
      d := d.(slab := Mask(0));
    } else {
      d := d.(slab := Or(Mask(32), d.slab));
      BigWord(d.slab, shift);
      CutBig(d, shift);
    }
    CutHasFree(d, shift);
  }

  lemma CutHasFree(d: Desc, shift: nat)
    requires MIN_SHIFT <= shift < PAGE_SHIFT && JustCut(d, shift)
    ensures HasFree(UsedOf(d))
  {
    assert !UsedOf(d)[Reserved(shift) + 1];
  }

  lemma CutSmall(d: Desc, shift: nat)
    requires MIN_SHIFT <= shift < EXACT_SHIFT && d.Kind() == Small && d.slab == OfNat(shift, 64)
    requires FirstBits(d.bitmap, Chunks(shift) / 64, Reserved(shift))
    ensures JustCut(d, shift)
  {
    OfNatFits(shift, 64, 4);
  }

  lemma BigWord(w: U64, shift: nat)
    requires shift < PAGE_SHIFT && w == Or(Mask(32), OfNat(shift, 64))
    ensures Value(w[..4]) == shift && ClearFrom(w, 33) && w[32]
  {
    OfNatFits(shift, 64, 4);
    assert w[..4] == OfNat(shift, 64)[..4];
  }

  lemma CutBig(d: Desc, shift: nat)
    requires EXACT_SHIFT < shift < PAGE_SHIFT && d.Kind() == Big
    requires Value(d.slab[..4]) == shift && ClearFrom(d.slab, 33) && d.slab[32]
    ensures JustCut(d, shift)
  {
    var u := d.slab[32..32 + Chunks(shift)];
    assert forall j :: 0 <= j < |u| ==> u[j] == (j == 0);
  }

  ghost predicate FirstBits(ws: seq<U64>, words: nat, n: nat) {
    |ws| == words && forall j :: 0 <= j < |Flat(ws)| ==> (Flat(ws)[j] <==> j <= n)
  }

  method NewMap(words: nat, n: nat) returns (ws: seq<U64>)
    requires 0 < words && n < 63
    ensures FirstBits(ws, words, n)
  {
    ws := [Field(0, n + 1)];
    for i := 1 to words
      invariant |ws| == i && ws[0] == Field(0, n + 1) && forall k :: 1 <= k < i ==> Empty(ws[k])
    {
      ws := ws + [Zero()];
    }
    forall j | 0 <= j < 64 * words ensures Flat(ws)[j] <==> j <= n {
      FirstOnly(ws, n, j);
    }
  }

  lemma FirstOnly(ws: seq<U64>, n: nat, j: nat)
    requires j < 64 * |ws| && n < 63 && ws[0] == Field(0, n + 1) && forall k :: 1 <= k < |ws| ==> Empty(ws[k])
    ensures Flat(ws)[j] <==> j <= n
  {
    if j < 64 {
      FlatAt(ws, 0, j);
    } else if Flat(ws)[j] {
      WordLive(ws, j);
    }
  }

  // ---- runs of pages ----

  // What the slab field of a page outside the slabs says
  lemma RunWord(d: Desc)
    requires d.Kind() == PageTag && d.slab != Ones()
    ensures Value(And(d.slab, Not(Start()))) == Len(WordOf(d)) == Value(d.slab[..63]) < Pow2(63)
    ensures WordOf(d).Started? <==> d.slab[63]
    ensures WordOf(d).Count? <==> !d.slab[63]
  {
    var w := d.slab[63 := false];
    MaskBit(d.slab, 63);
    ValueTop(w);
    assert w[..63] == d.slab[..63];
    if !d.slab[63] {
      assert w == d.slab;
    }
    ValueBelow(d.slab[..63]);
  }

  lemma ValueBelow63(d: Desc)
    requires d.Kind() == PageTag && WordOf(d).Count?
    ensures WordOf(d) == Count(Value(d.slab)) && Value(d.slab) < Pow2(63)
  {
    RunWord(d);
  }

  lemma LengthWord(d: Desc, k: nat)
    requires k < Pow2(63) && d.Kind() == PageTag && d.slab == OfNat(k, 64)
    ensures WordOf(d) == Count(k)
  {
    OfNatFits(k, 64, 63);
    assert !d.slab[63];
    RunWord(d);
  }

  lemma StartWord(d: Desc, k: nat)
    requires k < Pow2(63) - 1 && d.Kind() == PageTag && d.slab == Or(OfNat(k, 64), Start())
    ensures WordOf(d) == Started(k)
  {
    var w := OfNat(k, 64);
    OfNatFits(k, 64, 63);
    MaskBit(w, 63);
    assert d.slab[..63] == w[..63];
    if d.slab == Ones() {
      AllOnesValue(w[..63]);
      assert false;
    }
    RunWord(d);
  }

  lemma AllOnesValue(w: seq<bool>)
    requires forall i :: 0 <= i < |w| ==> w[i]
    ensures Value(w) == Pow2(|w|) - 1
  {
    ValueField(w, 0, |w|);
  }

  lemma RestWord(d: Desc, pages: U64, rest: Desc)
    requires d.Kind() == rest.Kind() == PageTag && WordOf(d).Count? && Value(pages) <= Value(d.slab)
    requires rest.slab == Sub(d.slab, pages)
    ensures WordOf(rest) == Count(Value(d.slab) - Value(pages))
  {
    var k := Value(d.slab) - Value(pages);
    assert rest.slab == OfNat(k, 64);
    ValueBelow63(d);
    LengthWord(rest, k);
  }

  lemma HeadWord(pages: U64, head: Desc)
    requires Value(pages) < Pow2(63) - 1 && head.Kind() == PageTag && head.slab == Or(pages, Start())
    ensures WordOf(head) == Started(Value(pages))
  {
    OfNatValue(pages);
    StartWord(head, Value(pages));
  }

  // The part of ngx_slab_alloc_pages that takes `pages` pages from a free run: the first of them, and, where the run is
  // longer,
  method TakeRun(d: Desc, pages: U64) returns (fits: bool, more: bool, head: Desc)
    requires d.Kind() == PageTag && WordOf(d).Count? && 0 < Value(pages) < Pow2(63) - 1
    ensures (fits <==> Len(WordOf(d)) >= Value(pages)) && (more <==> Len(WordOf(d)) > Value(pages))
    ensures fits ==>
      head.Kind() == PageTag && head.next == head.Link() == Zero() && WordOf(head) == Started(Value(pages))
  {
    fits, more, head := Value(d.slab) >= Value(pages), Value(d.slab) > Value(pages), d;
    if fits {
      head := SetPrev(d.(slab := Or(pages, Start()), next := Zero()), Zero(), PageTag);
      HeadWord(pages, head);
    }
  }

  // the first page of what is left
  function RestPage(d: Desc, pages: U64, e: Desc): (r: Desc)
    requires d.Kind() == PageTag && WordOf(d).Count? && Value(pages) <= Len(WordOf(d))
    ensures r.Kind() == PageTag && r.next == d.next && r.Link() == d.Link()
    ensures WordOf(r) == Count(Len(WordOf(d)) - Value(pages))
  {
    var r := e.(slab := Sub(d.slab, pages), next := d.next, prev := d.prev);
    RestWord(d, pages, r);
    r
  }

  // A page inside a block, and one inside a free run
  function BusyPage(d: Desc): (r: Desc)
    ensures r.Kind() == PageTag && WordOf(r) == PageBusy
  {
    d.(slab := Ones(), next := Zero(), prev := TagWord(PageTag))
  }

  function FreePage(d: Desc): (r: Desc)
    ensures r.Kind() == PageTag && WordOf(r) == Count(0)
  {
    ValueZero(Zero());
    d.(slab := Zero(), next := Zero(), prev := Zero())
  }

  // The part of ngx_slab_free_locked and ngx_slab_free_pages for a page outside the slabs: the two errors, or a free
  // run.
  method DropRun(d: Desc) returns (free: bool, busy: bool, next: Desc)
    requires d.Kind() == PageTag
    ensures free <==> WordOf(d) == Count(0)
    ensures busy <==> WordOf(d) == PageBusy
    ensures next.Kind() == PageTag && WordOf(next) == if free || busy then WordOf(d) else Count(Len(WordOf(d)))
  {
    free, busy, next := d.slab == Zero(), d.slab == Ones(), d;
    ValueZero(d.slab);
    if !free && !busy {
      next := d.(slab := And(d.slab, Not(Start())));
      RunWord(d);
      OfNatValue(next.slab);
      LengthWord(next, Value(next.slab));
    }
  }
}
