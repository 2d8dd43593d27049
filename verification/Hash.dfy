/** The packed hash table of nginx/src/core/ngx_hash.c, on a 64-bit platform with cache lines of 64 bytes.

    Memory is known by the cells in it: an element at its address, or the null value that ends a bucket.  That the
    cells do not overlap, so that this is what memory holds, is proved of the addresses (`Packed`). */
module Hash {

  type Name = seq<int>

  // ngx_hash_key_t; an entry without a name is passed over.
  datatype Entry = Entry(present: bool, name: Name, hash: nat, value: nat)

  datatype Cell = Elt(value: nat, name: Name) | End

  const PTR_SIZE := 8
  const LINE := 64
  const SHORT := 0x1_0000

  function Align(x: nat, a: nat): nat
    requires a > 0
  {
    (x + a - 1) / a * a
  }

  // NGX_HASH_ELT_SIZE
  function Size(name: Name): nat {
    PTR_SIZE + Align(|name| + 2, PTR_SIZE)
  }

  lemma SizeBounds(name: Name)
    ensures Size(name) >= 16 && Size(name) % 8 == 0 && 10 + |name| <= Size(name)
  {}

  // ngx_strlow
  function LowerChar(c: int): int {
    if 65 <= c <= 90 then c + 32 else c
  }

  function Lower(name: Name): (r: Name)
    ensures |r| == |name|
  {
    seq(|name|, i requires 0 <= i < |name| => LowerChar(name[i]))
  }

  // The bucket of each entry, -1 for one that is passed over
  ghost predicate Keys(names: seq<Entry>, size: nat, keys: seq<int>) {
    && |keys| == |names| && size > 0
    && forall n {:trigger keys[n]} :: 0 <= n < |names| ==> -1 <= keys[n] < size && KeyAt(names[n], size, keys[n])
  }

  ghost predicate KeyAt(e: Entry, size: nat, key: int)
    requires size > 0
  {
    key == if e.present then e.hash % size else -1
  }

  lemma {:induction false} SomeKeys(names: seq<Entry>, size: nat) returns (keys: seq<int>)
    requires size > 0
    ensures Keys(names, size, keys)
  {
    if names == [] {
      keys := [];
    } else {
      var e := names[|names| - 1];
      keys := SomeKeys(names[..|names| - 1], size);
      keys := keys + [if e.present then e.hash % size else -1];
    }
  }

  // The bytes of the first n entries that are in bucket i
  function Sum(names: seq<Entry>, keys: seq<int>, i: int, n: nat): nat
    requires n <= |names| == |keys|
  {
    if n == 0 then 0 else Sum(names, keys, i, n - 1) + if keys[n - 1] == i then Size(names[n - 1].name) else 0
  }

  lemma {:induction false} SumGrows(names: seq<Entry>, keys: seq<int>, i: int, m: nat, n: nat)
    requires m <= n <= |names| == |keys|
    ensures Sum(names, keys, i, m) <= Sum(names, keys, i, n)
    ensures m < n && keys[m] == i ==> Sum(names, keys, i, m) + Size(names[m].name) <= Sum(names, keys, i, n)
    decreases n
  {
    if m < n {
      SumGrows(names, keys, i, m, n - 1);
    }
  }

  lemma {:induction false} SumAligned(names: seq<Entry>, keys: seq<int>, i: int, n: nat)
    requires n <= |names| == |keys|
    ensures Sum(names, keys, i, n) % 8 == 0
    decreases n
  {
    if n > 0 {
      SumAligned(names, keys, i, n - 1);
      SizeBounds(names[n - 1].name);
    }
  }

  // Every bucket has room, with a size of at most bs.
  ghost predicate Fits(names: seq<Entry>, keys: seq<int>, size: nat, bs: nat)
    requires |names| == |keys|
  {
    forall i :: 0 <= i < size ==> Sum(names, keys, i, |names|) <= bs
  }

  // Each single element has room for itself and the end of its bucket.
  ghost predicate Small(names: seq<Entry>, bs: nat) {
    forall n :: 0 <= n < |names| ==> Size(names[n].name) <= bs
  }

  // The first loop of ngx_hash_init
  method CheckSizes(names: seq<Entry>, bucketSize: nat) returns (ok: bool)
    ensures ok <==> forall n :: 0 <= n < |names| ==> Size(names[n].name) + PTR_SIZE <= bucketSize
  {
    for n := 0 to |names|
      invariant forall m :: 0 <= m < n ==> Size(names[m].name) + PTR_SIZE <= bucketSize
    {
      if bucketSize < Size(names[n].name) + PTR_SIZE {
        return false;
      }
    }
    ok := true;
  }

  // names[n].key_hash % size, or -1 for an entry that is passed over
  method KeyOf(names: seq<Entry>, size: nat, n: nat, ghost keys: seq<int>) returns (key: int)
    requires Keys(names, size, keys) && n < |names|
    ensures key == keys[n]
  {
    key := if names[n].present then names[n].hash % size else -1;
  }

  lemma NoWrap(a: nat, b: nat)
    requires a + b < SHORT
    ensures (a + b) % SHORT == a + b
  {}

  // The sums over the first n entries, in an array of 16-bit numbers, all raised by `base`
  ghost predicate Sums(test: seq<nat>, names: seq<Entry>, keys: seq<int>, size: nat, n: nat, base: nat)
    requires n <= |names| == |keys|
  {
    |test| == size && forall i :: 0 <= i < size ==> test[i] == base + Sum(names, keys, i, n)
  }

  // test[key] = (u_short) (test[key] + NGX_HASH_ELT_SIZE(&names[n]))
  method Add(test0: seq<nat>, names: seq<Entry>, size: nat, n: nat, key: int, base: nat, ghost keys: seq<int>)
      returns (test: seq<nat>)
    requires Keys(names, size, keys) && n < |names| && Sums(test0, names, keys, size, n, base) && key == keys[n]
    requires key >= 0 ==> test0[key] + Size(names[n].name) < SHORT
    ensures Sums(test, names, keys, size, n + 1, base)
  {
    test := test0;
    if key >= 0 {
      var bytes := Size(names[n].name);
      NoWrap(test[key], bytes);
      test := test[key := (test[key] + bytes) % SHORT];
    }
  }

  // The bytes of the first n entries in bucket i as the search keeps them, in 16 bits
  function Sum16(names: seq<Entry>, keys: seq<int>, i: int, n: nat): nat
    requires n <= |names| == |keys|
  {
    if n == 0 then 0
    else if keys[n - 1] == i then (Sum16(names, keys, i, n - 1) + Size(names[n - 1].name)) % SHORT
    else Sum16(names, keys, i, n - 1)
  }

  ghost predicate Low(names: seq<Entry>, keys: seq<int>, i: int, n: nat, bs: nat)
    requires n <= |names| == |keys|
  {
    forall m :: 0 <= m <= n ==> Sum16(names, keys, i, m) <= bs
  }

  // What one round of the search asks of a size: no bucket ever seems to exceed (u_short) bs.
  ghost predicate Accepts(names: seq<Entry>, keys: seq<int>, size: nat, bs: nat)
    requires |names| == |keys|
  {
    forall i :: 0 <= i < size ==> Low(names, keys, i, |names|, bs % SHORT)
  }

  // The round decides whether every bucket has room as long as two elements cannot wrap the sum,
  lemma AcceptsIff(names: seq<Entry>, keys: seq<int>, size: nat, bs: nat)
    requires |names| == |keys| && Small(names, bs) && bs < 0x8000
    ensures Accepts(names, keys, size, bs) <==> Fits(names, keys, size, bs)
  {
    assert bs % SHORT == bs;
    forall i | 0 <= i < size ensures Low(names, keys, i, |names|, bs) <==> Sum(names, keys, i, |names|) <= bs {
      NeverWraps(names, keys, i, |names|, bs);
    }
  }

  lemma {:induction false} NeverWraps(names: seq<Entry>, keys: seq<int>, i: int, n: nat, bs: nat)
    requires n <= |names| == |keys| && Small(names, bs) && bs < 0x8000
    ensures Low(names, keys, i, n, bs) <==> Sum(names, keys, i, n) <= bs
    ensures Sum(names, keys, i, n) <= bs ==> Sum16(names, keys, i, n) == Sum(names, keys, i, n)
  {
    if n > 0 {
      NeverWraps(names, keys, i, n - 1, bs);
      SumGrows(names, keys, i, n - 1, n);
      assert Low(names, keys, i, n, bs) <==> Low(names, keys, i, n - 1, bs) && Sum16(names, keys, i, n) <= bs;
      if keys[n - 1] == i && Sum(names, keys, i, n - 1) <= bs {
        NoWrap(Sum16(names, keys, i, n - 1), Size(names[n - 1].name));
      }
    }
  }

  // and not from then on: two elements of half the range seem to take no room at all.
  lemma SumWraps(bs: nat) returns (names: seq<Entry>, keys: seq<int>)
    requires 0x8000 <= bs < SHORT
    ensures Small(names, bs) && Keys(names, 1, keys) && Accepts(names, keys, 1, bs) && !Fits(names, keys, 1, bs)
  {
    var name := seq(32758, _ => 97);
    HalfSize(name);
    HalfSize(name[0 := 98]);
    names := [Entry(true, name, 0, 1), Entry(true, name[0 := 98], 0, 1)];
    keys := [0, 0];
    assert KeyAt(names[0], 1, 0) && KeyAt(names[1], 1, 0);
    HalfSums(names, keys);
  }

  lemma HalfSize(name: Name)
    requires |name| == 32758
    ensures Size(name) == 0x8000
  {}

  lemma HalfSums(names: seq<Entry>, keys: seq<int>)
    requires |names| == |keys| == 2 && keys[0] == keys[1] == 0
    requires Size(names[0].name) == Size(names[1].name) == 0x8000
    ensures Sum(names, keys, 0, 2) == SHORT
    ensures Sum16(names, keys, 0, 0) == 0 && Sum16(names, keys, 0, 1) == 0x8000 && Sum16(names, keys, 0, 2) == 0
  {
    assert Sum(names, keys, 0, 0) == 0;
    assert Sum(names, keys, 0, 1) == 0x8000;
    assert Sum16(names, keys, 0, 1) == 0x8000 % SHORT;
    assert Sum16(names, keys, 0, 2) == (0x8000 + 0x8000) % SHORT;
  }

  // One round of the search for a size
  method Try(names: seq<Entry>, size: nat, bs: nat, ghost keys: seq<int>) returns (ok: bool)
    requires Keys(names, size, keys)
    ensures ok <==> Accepts(names, keys, size, bs)
  {
    var test: seq<nat> := seq(size, _ => 0);
    for n := 0 to |names|
      invariant |test| == size && forall i :: 0 <= i < size ==> test[i] == Sum16(names, keys, i, n)
      invariant forall i :: 0 <= i < size ==> Low(names, keys, i, n, bs % SHORT)
    {
      var key := KeyOf(names, size, n, keys);
      assert KeyAt(names[n], size, key);
      if key >= 0 {
        test := test[key := (test[key] + Size(names[n].name)) % SHORT];
        if test[key] > bs % SHORT {
          assert test[key] == Sum16(names, keys, key, n + 1);
          assert !Low(names, keys, key, |names|, bs % SHORT);
          return false;
        }
      }
      ghost var m, cap := n + 1, bs % SHORT;
      forall i | 0 <= i < size ensures Low(names, keys, i, m, cap) {
        assert Low(names, keys, i, n, cap) && Sum16(names, keys, i, m) <= cap;
      }
    }
    ok := true;
  }

  // The search for a size: the first from `start` on, below maxSize, with which every bucket has room
  method FindSize(names: seq<Entry>, start: nat, maxSize: nat, bs: nat) returns (size: nat, ghost keys: seq<int>)
    requires start > 0 && Small(names, bs) && bs < 0x8000
    ensures size > 0 ==> start <= size < maxSize && Keys(names, size, keys) && Fits(names, keys, size, bs)
    ensures forall z, k :: start <= z < (if size > 0 then size else maxSize) && Keys(names, z, k) ==>
      !Fits(names, k, z, bs)
  {
    size, keys := start, [];
    while size < maxSize
      invariant start <= size && forall z, k :: start <= z < size && z < maxSize && Keys(names, z, k) ==>
        !Fits(names, k, z, bs)
      decreases maxSize - size
    {
      keys := SomeKeys(names, size);
      AcceptsIff(names, keys, size, bs);
      var ok := Try(names, size, bs, keys);
      if ok {
        return;
      }
      forall k | Keys(names, size, k) ensures !Fits(names, k, size, bs) { SameKeys(names, size, keys, k); }
      size := size + 1;
    }
    size := 0;
  }

  lemma SameKeys(names: seq<Entry>, size: nat, k: seq<int>, l: seq<int>)
    requires Keys(names, size, k) && Keys(names, size, l)
    ensures k == l
  {
    forall n | 0 <= n < |k| ensures k[n] == l[n] { assert KeyAt(names[n], size, k[n]) && KeyAt(names[n], size, l[n]); }
  }

  // The memory of a bucket: its elements and its end, rounded up to cache lines; none for an empty one
  function Room(sum: nat): nat {
    if sum == 0 then 0 else Align(PTR_SIZE + sum, LINE)
  }

  // The bytes of the buckets before bucket i
  function Offset(names: seq<Entry>, keys: seq<int>, i: nat): nat
    requires |names| == |keys|
  {
    if i == 0 then 0 else Offset(names, keys, i - 1) + Room(Sum(names, keys, i - 1, |names|))
  }

  // Where a bucket begins, or 0
  ghost predicate Buckets(names: seq<Entry>, keys: seq<int>, size: nat, base: int, buckets: seq<int>)
    requires |names| == |keys|
  {
    |buckets| == size && forall i :: 0 <= i < size ==> buckets[i] == if Sum(names, keys, i, |names|) == 0 then 0
      else base + Offset(names, keys, i)
  }

  // Where an element is, and where the end of a bucket is
  function Where(names: seq<Entry>, keys: seq<int>, buckets: seq<int>, n: nat): int
    requires n < |names| == |keys| && 0 <= keys[n] < |buckets|
  {
    buckets[keys[n]] + Sum(names, keys, keys[n], n)
  }

  function EndOf(names: seq<Entry>, keys: seq<int>, buckets: seq<int>, i: nat): int
    requires |names| == |keys| && i < |buckets|
  {
    buckets[i] + Sum(names, keys, i, |names|)
  }

  lemma {:induction false} OffsetGrows(names: seq<Entry>, keys: seq<int>, i: nat, j: nat)
    requires |names| == |keys| && i < j
    ensures Offset(names, keys, i) + Room(Sum(names, keys, i, |names|)) <= Offset(names, keys, j)
    decreases j
  {
    if i < j - 1 {
      OffsetGrows(names, keys, i, j - 1);
    }
  }

  lemma RoomEnough(sum: nat)
    ensures sum > 0 ==> sum + PTR_SIZE <= Room(sum) && Room(sum) % LINE == 0
  {}

  // An element lies in its bucket, before the end of it, which lies in the bucket too.
  lemma InBucket(names: seq<Entry>, keys: seq<int>, size: nat, base: int, buckets: seq<int>, n: nat)
    requires Keys(names, size, keys) && Buckets(names, keys, size, base, buckets) && n < |names| && keys[n] >= 0
    ensures var i := keys[n]; var at := Where(names, keys, buckets, n);
            && base + Offset(names, keys, i) == buckets[i] <= at &&
               at + Size(names[n].name) <= EndOf(names, keys, buckets, i)
            && EndOf(names, keys, buckets, i) + PTR_SIZE <= base + Offset(names, keys,
               i + 1) <= base + Offset(names, keys, size)
  {
    var i := keys[n];
    SumGrows(names, keys, i, n, |names|);
    SizeBounds(names[n].name);
    RoomEnough(Sum(names, keys, i, |names|));
    if i + 1 < size { OffsetGrows(names, keys, i + 1, size); }
  }

  // No two elements overlap,
  lemma Packed(names: seq<Entry>, keys: seq<int>, size: nat, base: int, buckets: seq<int>, n: nat, m: nat)
    requires Keys(names, size, keys) && Buckets(names, keys, size, base, buckets) && n < m < |names| && keys[n] >= 0 &&
      keys[m] >= 0
    ensures var a, b := Where(names, keys, buckets, n), Where(names, keys, buckets, m);
            a + Size(names[n].name) <= b || b + Size(names[m].name) <= a
  {
    InBucket(names, keys, size, base, buckets, n);
    InBucket(names, keys, size, base, buckets, m);
    if keys[n] == keys[m] {
      SumGrows(names, keys, keys[n], n, m);
    } else if keys[n] < keys[m] {
      if keys[n] + 1 < keys[m] { OffsetGrows(names, keys, keys[n] + 1, keys[m]); }
    } else {
      if keys[m] + 1 < keys[n] { OffsetGrows(names, keys, keys[m] + 1, keys[n]); }
    }
  }

  // and no element overlaps the end of a bucket.
  lemma PackedEnds(names: seq<Entry>, keys: seq<int>, size: nat, base: int, buckets: seq<int>, n: nat, i: nat)
    requires Keys(names, size, keys) && Buckets(names, keys, size, base, buckets) && n < |names| && keys[n] >= 0
    requires i < size && Sum(names, keys, i, |names|) > 0
    ensures var a, b := Where(names, keys, buckets, n), EndOf(names, keys, buckets, i);
            a + Size(names[n].name) <= b || b + PTR_SIZE <= a
  {
    var k := keys[n];
    if k < i {
      BeforeBucket(names, keys, size, base, buckets, n, i);
      EndIn(names, keys, size, base, buckets, i);
    } else if i < k {
      EndBefore(names, keys, size, base, buckets, i, k);
      InBucket(names, keys, size, base, buckets, n);
    } else {
      SumGrows(names, keys, k, n, |names|);
    }
  }

  lemma BeforeBucket(names: seq<Entry>, keys: seq<int>, size: nat, base: int, buckets: seq<int>, n: nat, j: nat)
    requires Keys(names, size, keys) && Buckets(names, keys, size, base, buckets) && n < |names| &&
      0 <= keys[n] < j <= size
    ensures Where(names, keys, buckets, n) + Size(names[n].name) <= base + Offset(names, keys, j)
  {
    InBucket(names, keys, size, base, buckets, n);
    OffsetMono(names, keys, keys[n] + 1, j);
  }

  lemma EndBefore(names: seq<Entry>, keys: seq<int>, size: nat, base: int, buckets: seq<int>, i: nat, j: nat)
    requires Keys(names, size, keys) && Buckets(names, keys, size, base, buckets) && i < j <= size &&
      Sum(names, keys, i, |names|) > 0
    ensures EndOf(names, keys, buckets, i) + PTR_SIZE <= base + Offset(names, keys, j)
  {
    EndIn(names, keys, size, base, buckets, i);
    OffsetMono(names, keys, i + 1, j);
  }

  lemma OffsetMono(names: seq<Entry>, keys: seq<int>, i: nat, j: nat)
    requires |names| == |keys| && i <= j
    ensures Offset(names, keys, i) <= Offset(names, keys, j)
  {
    if i < j { OffsetGrows(names, keys, i, j); }
  }

  lemma EndIn(names: seq<Entry>, keys: seq<int>, size: nat, base: int, buckets: seq<int>, i: nat)
    requires Keys(names, size, keys) && Buckets(names, keys, size, base, buckets) && i < size &&
      Sum(names, keys, i, |names|) > 0
    ensures base + Offset(names, keys, i) <= EndOf(names, keys, buckets, i) &&
      EndOf(names, keys, buckets, i) + PTR_SIZE <= base + Offset(names, keys, i + 1)
  {
    RoomEnough(Sum(names, keys, i, |names|));
  }

  // No two buckets end in the same place.
  lemma EndsApart(names: seq<Entry>, keys: seq<int>, size: nat, base: int, buckets: seq<int>, i: nat, j: nat)
    requires Keys(names, size, keys) && Buckets(names, keys, size, base, buckets) && i < j < size
    requires Sum(names, keys, i, |names|) > 0 && Sum(names, keys, j, |names|) > 0
    ensures EndOf(names, keys, buckets, i) + PTR_SIZE <= EndOf(names, keys, buckets, j)
  {
    EndIn(names, keys, size, base, buckets, i);
    EndIn(names, keys, size, base, buckets, j);
    if i + 1 < j { OffsetGrows(names, keys, i + 1, j); }
  }

  // What the memory of the table holds when it has been filled
  ghost predicate Filled(names: seq<Entry>, keys: seq<int>, buckets: seq<int>, mem: map<int, Cell>, n: nat)
    requires n <= |names| == |keys|
  {
    forall m {:trigger keys[m]} :: 0 <= m < n && 0 <= keys[m] < |buckets| ==>
      var at := Where(names, keys, buckets, m); at in mem && mem[at] == Elt(names[m].value, Lower(names[m].name))
  }

  ghost predicate Ended(names: seq<Entry>, keys: seq<int>, buckets: seq<int>, mem: map<int, Cell>, k: nat)
    requires |names| == |keys| && k <= |buckets|
  {
    forall i :: 0 <= i < k && buckets[i] != 0 ==>
      EndOf(names, keys, buckets, i) in mem && mem[EndOf(names, keys, buckets, i)] == End
  }

  ghost predicate Table(names: seq<Entry>, keys: seq<int>, size: nat, base: int, buckets: seq<int>, mem: map<int,
      Cell>) {
    && Keys(names, size, keys) && base > 0 && base % LINE == 0 && Buckets(names, keys, size, base, buckets)
    && Filled(names, keys, buckets, mem, |names|) && Ended(names, keys, buckets, mem, size)
  }

  // The sizes of the buckets, with their ends,
  method Weigh(names: seq<Entry>, size: nat, bs: nat, ghost keys: seq<int>) returns (test: seq<nat>)
    requires Keys(names, size, keys) && Fits(names, keys, size, bs) && bs < 0x8000
    ensures Sums(test, names, keys, size, |names|, PTR_SIZE)
  {
    test := seq(size, _ => PTR_SIZE);
    for n := 0 to |names|
      invariant Sums(test, names, keys, size, n, PTR_SIZE)
    {
      var key := KeyOf(names, size, n, keys);
      if key >= 0 {
        SumGrows(names, keys, key, n, |names|);
        SizeBounds(names[n].name);
      }
      test := Add(test, names, size, n, key, PTR_SIZE, keys);
    }
  }

  // and, for those that hold something, their places
  method Place(names: seq<Entry>, size: nat, bs: nat, base: int, ghost keys: seq<int>)
      returns (buckets: seq<int>, len: nat)
    requires Keys(names, size, keys) && Fits(names, keys, size, bs) && bs < 0x8000
    ensures Buckets(names, keys, size, base, buckets) && len == Offset(names, keys, size)
  {
    var test := Weigh(names, size, bs, keys);
    len, buckets := 0, [];
    for i := 0 to size
      invariant len == Offset(names, keys, i) && Buckets(names, keys, i, base, buckets)
    {
      if test[i] == PTR_SIZE {
        buckets := buckets + [0];
      } else {
        buckets := buckets + [base + len];
        SumAligned(names, keys, i, |names|);
        len := Advance(len, test[i], Sum(names, keys, i, |names|));
      }
    }
  }

  method Advance(len: nat, x: nat, ghost sum: nat) returns (next: nat)
    requires x == PTR_SIZE + sum && 0 < sum < 0x8000 && sum % 8 == 0
    ensures next == len + Room(sum)
  {
    RoomFor(sum, x);
    next := len + Align(x, LINE) % SHORT;
  }

  lemma RoomFor(sum: nat, x: nat)
    requires x == PTR_SIZE + sum && 0 < sum < 0x8000 && sum % 8 == 0
    ensures Align(x, LINE) % SHORT == Room(sum)
  {
    AlignedBelow(x);
    NoWrap(Align(x, LINE), 0);
  }

  lemma AlignedBelow(x: nat)
    requires x <= 0x8000
    ensures Align(x, LINE) < SHORT
  {}

  lemma {:induction false} OffsetAligned(names: seq<Entry>, keys: seq<int>, i: nat)
    requires |names| == |keys|
    ensures Offset(names, keys, i) % LINE == 0
    decreases i
  {
    if i > 0 {
      OffsetAligned(names, keys, i - 1);
      RoomEnough(Sum(names, keys, i - 1, |names|));
    }
  }

  // The last two loops of ngx_hash_init
  method Fill(names: seq<Entry>, size: nat, bs: nat, base: int, buckets: seq<int>, ghost keys: seq<int>)
      returns (mem: map<int, Cell>)
    requires Keys(names, size, keys) && Fits(names, keys, size, bs) && bs < 0x8000 && base > 0 && base % LINE == 0
    requires Buckets(names, keys, size, base, buckets)
    ensures Table(names, keys, size, base, buckets, mem)
  {
    var test: seq<nat> := seq(size, _ => 0);
    mem := map[];
    for n := 0 to |names|
      invariant Sums(test, names, keys, size, n, 0) && Filled(names, keys, buckets, mem, n)
    {
      var key := KeyOf(names, size, n, keys);
      if key >= 0 {
        SumGrows(names, keys, key, n, |names|);
        mem := Store(names, size, base, buckets, mem, n, buckets[key] + test[key], keys);
      }
      test := Add(test, names, size, n, key, 0, keys);
    }
    mem := Close(names, size, base, buckets, mem, test, keys);
  }

  method Store(names: seq<Entry>, size: nat, base: int, buckets: seq<int>, mem0: map<int, Cell>, n: nat, at: int,
      ghost keys: seq<int>) returns (mem: map<int, Cell>)
    requires Keys(names, size, keys) && Buckets(names, keys, size, base, buckets) && n < |names| && keys[n] >= 0
    requires Filled(names, keys, buckets, mem0, n) && at == Where(names, keys, buckets, n)
    ensures Filled(names, keys, buckets, mem, n + 1)
  {
    mem := mem0[at := Elt(names[n].value, Lower(names[n].name))];
    forall m | 0 <= m < n && 0 <= keys[m] < |buckets| ensures Where(names, keys, buckets, m) != at {
      Packed(names, keys, size, base, buckets, m, n);
      SizeBounds(names[m].name);
      SizeBounds(names[n].name);
    }
  }

  method Close(names: seq<Entry>, size: nat, base: int, buckets: seq<int>, mem0: map<int, Cell>, test: seq<nat>,
      ghost keys: seq<int>) returns (mem: map<int, Cell>)
    requires Keys(names, size, keys) && Buckets(names, keys, size, base, buckets) && base > 0 && base % LINE == 0
    requires Filled(names, keys, buckets, mem0, |names|) && Sums(test, names, keys, size, |names|, 0)
    ensures Table(names, keys, size, base, buckets, mem)
  {
    mem := mem0;
    for i := 0 to size
      invariant Filled(names, keys, buckets, mem, |names|) && Ended(names, keys, buckets, mem, i)
    {
      if buckets[i] != 0 {
        forall m | 0 <= m < |names| && 0 <= keys[m] < |buckets|
          ensures Where(names, keys, buckets, m) != buckets[i] + test[i] {
          PackedEnds(names, keys, size, base, buckets, m, i);
          SizeBounds(names[m].name);
        }
        forall j | 0 <= j < i && buckets[j] != 0 ensures EndOf(names, keys, buckets, j) != buckets[i] + test[i] {
          EndsApart(names, keys, size, base, buckets, j, i);
        }
        mem := mem[buckets[i] + test[i] := End];
      }
    }
  }

  // Where the search for a size begins
  function Start(count: nat, bs: nat, maxSize: nat): nat
    requires bs >= 2 * PTR_SIZE && (maxSize > 10000 ==> count > 0)
  {
    var start := count / (bs / (2 * PTR_SIZE));
    if maxSize > 10000 && maxSize / count < 100 then maxSize - 1000 else if start > 0 then start else 1
  }

  // ngx_hash_init, with memory for the elements at `base` and buckets of less than 32776 bytes.  Without names both
  // divisions must be defined.  The table has the first size that fits, and there is none only when an element is too
  // big or no size fits; the length it asks memory for is that of the buckets.
  method Init(names: seq<Entry>, bucketSize: nat, maxSize: nat, base: int)
    returns (size: nat, buckets: seq<int>, len: nat, mem: map<int, Cell>, ghost keys: seq<int>)
    requires |names| > 0 || (bucketSize >= 3 * PTR_SIZE && maxSize <= 10000)
    requires bucketSize < 0x8000 + PTR_SIZE && base > 0 && base % LINE == 0
    ensures size > 0 ==>
      size < maxSize && Table(names, keys, size, base, buckets, mem) && len == Offset(names, keys, size)
    ensures size > 0 ==>
      bucketSize >= 3 * PTR_SIZE && Small(names, bucketSize - PTR_SIZE) &&
      Fits(names, keys, size, bucketSize - PTR_SIZE)
    ensures (forall n :: 0 <= n < |names| ==> Size(names[n].name) + PTR_SIZE <= bucketSize) ==>
              && bucketSize >= 3 * PTR_SIZE
              && forall z, k ::
                   (Start(|names|, bucketSize - PTR_SIZE, maxSize) <= z < (if size > 0 then size else maxSize) &&
                    Keys(names, z, k)) ==> !Fits(names, k, z, bucketSize - PTR_SIZE)
  {
    size, buckets, len, mem, keys := 0, [], 0, map[], [];
    var ok := CheckSizes(names, bucketSize);
    if !ok {
      return;
    }
    if |names| > 0 {
      SizeBounds(names[0].name);
    }
    var bs := bucketSize - PTR_SIZE;
    var start := |names| / (bs / (2 * PTR_SIZE));
    start := if start > 0 then start else 1;
    if maxSize > 10000 && maxSize / |names| < 100 {
      start := maxSize - 1000;
    }
    size, keys := FindSize(names, start, maxSize, bs);
    if size > 0 {
      buckets, len := Place(names, size, bs, base, keys);
      mem := Fill(names, size, bs, base, buckets, keys);
    }
  }

  // The next entry from n on that is in bucket i, if any
  lemma {:induction false} NextIn(names: seq<Entry>, keys: seq<int>, i: int, n: nat) returns (m: nat)
    requires n <= |names| == |keys|
    ensures n <= m <= |names| && Sum(names, keys, i, m) == Sum(names, keys, i, n)
    ensures (m < |names| ==> keys[m] == i) && forall j :: n <= j < m ==> keys[j] != i
    decreases |names| - n
  {
    if n == |names| || keys[n] == i {
      m := n;
    } else {
      m := NextIn(names, keys, i, n + 1);
    }
  }

  // From one element to the next: the address behind the name, rounded up, is the end of the element.
  lemma NextElt(at: nat, name: Name)
    requires at % 8 == 0
    ensures Align(at + 10 + |name|, PTR_SIZE) == at + Size(name)
  {}

  lemma Aligned(names: seq<Entry>, keys: seq<int>, size: nat, base: int, buckets: seq<int>, mem: map<int, Cell>, n: nat)
    requires Table(names, keys, size, base, buckets, mem) && n < |names| && keys[n] >= 0
    ensures Where(names, keys, buckets, n) > 0 && Where(names, keys, buckets, n) % 8 == 0
  {
    InBucket(names, keys, size, base, buckets, n);
    OffsetAligned(names, keys, keys[n]);
    SumAligned(names, keys, keys[n], n);
    Multiple8(base, Offset(names, keys, keys[n]), Sum(names, keys, keys[n], n));
  }

  lemma Multiple8(a: int, b: nat, c: nat)
    requires a > 0 && a % LINE == 0 && b % LINE == 0 && c % 8 == 0
    ensures a + b + c > 0 && (a + b + c) % 8 == 0
  {
    LineEighths(a);
    LineEighths(b);
    Eighths(a, b, c);
  }

  lemma LineEighths(x: int)
    requires x % LINE == 0
    ensures x % 8 == 0
  {}

  lemma Eighths(a: int, b: int, c: int)
    requires a % 8 == 0 && b % 8 == 0 && c % 8 == 0
    ensures (a + b + c) % 8 == 0
  {}

  // No entry before n in bucket i has this name.
  ghost predicate Passed(names: seq<Entry>, keys: seq<int>, i: int, n: nat, name: Name)
    requires n <= |names| == |keys|
  {
    forall m :: 0 <= m < n && keys[m] == i ==> Lower(names[m].name) != name
  }

  // ngx_hash_find: the value of the first element in the bucket with this name, or 0
  method Find(size: nat, buckets: seq<int>, mem: map<int, Cell>, key: nat, name: Name, ghost names: seq<Entry>,
      ghost keys: seq<int>, ghost base: int)
    returns (value: nat, ghost n: nat)
    requires Table(names, keys, size, base, buckets, mem) && forall m :: 0 <= m < |names| && names[m].present ==>
      names[m].value != 0
    ensures n <= |names| && Passed(names, keys, key % size, n, name)
    ensures if n < |names| then keys[n] == key % size && Lower(names[n].name) == name && value == names[n].value
      else value == 0
  {
    var i := key % size;
    var elt := buckets[i];
    n := 0;
    if elt == 0 {
      n := Nobody(names, keys, i, name);
      return 0, n;
    }
    while true
      invariant n <= |names| && elt == buckets[i] + Sum(names, keys, i, n) && Passed(names, keys, i, n, name)
      decreases |names| - n
    {
      ghost var was := n;
      n := NextIn(names, keys, i, n);
      if n == |names| {
        assert elt == EndOf(names, keys, buckets, i);
      } else {
        assert KeyAt(names[n], size, keys[n]) && elt == Where(names, keys, buckets, n);
        Aligned(names, keys, size, base, buckets, mem, n);
      }
      if mem[elt].End? || mem[elt].value == 0 {
        return 0, n;
      }
      if mem[elt].name == name {
        return mem[elt].value, n;
      }
      NextElt(elt, names[n].name);
      elt := Align(elt + 10 + |mem[elt].name|, PTR_SIZE);
      n := n + 1;
    }
  }

  lemma Nobody(names: seq<Entry>, keys: seq<int>, i: int, name: Name) returns (n: nat)
    requires |names| == |keys| && Sum(names, keys, i, |names|) == 0
    ensures n == |names| && Passed(names, keys, i, n, name)
  {
    n := |names|;
    forall m | 0 <= m < |names| ensures keys[m] != i {
      SumGrows(names, keys, i, m, |names|);
      SizeBounds(names[m].name);
    }
  }

  // ngx_hash_key
  function HashKey(name: Name): nat {
    if name == [] then 0 else (HashKey(name[..|name| - 1]) * 31 + name[|name| - 1]) % 0x1_0000_0000_0000_0000
  }

  // The names given to the table: lower case, each once, with their hashes and values
  ghost predicate Proper(names: seq<Entry>) {
    && (forall n :: 0 <= n < |names| && names[n].present ==>
       Lower(names[n].name) == names[n].name && names[n].hash == HashKey(names[n].name) && names[n].value != 0)
    && (forall n, m :: 0 <= n < m < |names| && names[n].present && names[m].present ==> names[n].name != names[m].name)
  }

  // The table is a map: a name that was given has the value that was given with it, and no other name has one.
  method Lookup(size: nat, buckets: seq<int>, mem: map<int, Cell>, name: Name, ghost names: seq<Entry>,
      ghost keys: seq<int>, ghost base: int)
    returns (value: nat)
    requires Proper(names) && Table(names, keys, size, base, buckets, mem)
    ensures forall n :: 0 <= n < |names| && names[n].present && names[n].name == name ==> value == names[n].value
    ensures value != 0 ==> exists n :: 0 <= n < |names| && names[n].present && names[n].name == name
  {
    ghost var n;
    value, n := Find(size, buckets, mem, HashKey(name), name, names, keys, base);
    forall m | 0 <= m < |names| && names[m].present && names[m].name == name ensures m == n {
      assert KeyAt(names[m], size, keys[m]);
      assert n < |names| ==> KeyAt(names[n], size, keys[n]);
    }
    assert n < |names| ==> KeyAt(names[n], size, keys[n]);
  }
}
