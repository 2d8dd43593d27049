/** IPv4 and IPv6 addresses as text: nginx/src/core/ngx_inet.c, and section 2.2 of RFC 4291.

    An IPv6 address is its eight 16-bit words, each standing for two bytes of the source. */
module Inet6 {

  datatype Option<T> = None | Some(value: T)

  // Numbers as they are printed

  function DecChar(d: nat): char
    requires d < 10
  {
    ('0' as int + d) as char
  }

  function HexChar(d: nat): char
    requires d < 16
  {
    if d < 10 then ('0' as int + d) as char else ('a' as int + d - 10) as char
  }

  function Dec(n: nat): string {
    if n < 10 then [DecChar(n)] else Dec(n / 10) + [DecChar(n % 10)]
  }

  function Hex(n: nat): string {
    if n < 16 then [HexChar(n)] else Hex(n / 16) + [HexChar(n % 16)]
  }

  // ngx_inet_addr: octets so far, the octet in progress, and the text left.  None is INADDR_NONE, which is also the
  // value of 255.255.255.255.
  const WRAP := 0x1_0000_0000_0000_0000   // an octet is kept in 64 bits

  function Octets(s: string, addr: nat, octet: nat, n: nat): Option<nat> {
    if s == [] then (if n == 3 && octet < 256 then Some(addr * 256 + octet) else None)
    else if '0' <= s[0] <= '9' then Octets(s[1..], addr, (octet * 10 + (s[0] as int - '0' as int)) % WRAP, n)
    else if s[0] == '.' && octet < 256 then Octets(s[1..], addr * 256 + octet, 0, n + 1)
    else None
  }

  const INADDR_NONE := 0xffffffff

  function InetAddr(s: string): Option<nat> {
    var r := Octets(s, 0, 0, 0);
    if r == Some(INADDR_NONE) then None else r
  }

  // The state of ngx_inet6_addr: the words stored, where the double colon was, the text after the last colon, and
  // the digits and the value of the word in progress
  datatype State = State(words: seq<nat>, zero: Option<nat>, tail: Option<string>, nibbles: nat, word: nat)

  const START := State([], None, None, 0, 0)

  // Wild: at a dot, the text after the last colon is read through a pointer that no colon has set.
  datatype Result = Address(words: seq<nat>) | Error | Wild

  function HexValue(c: char): Option<nat> {
    if '0' <= c <= '9' then Some(c as int - '0' as int)
    else if 'a' <= c <= 'f' then Some(c as int - 'a' as int + 10)
    else if 'A' <= c <= 'F' then Some(c as int - 'A' as int + 10)
    else None
  }

  function Zeros(n: nat): seq<nat> {
    if n == 0 then [] else [0] + Zeros(n - 1)
  }

  // The last word is stored, and the words behind the double colon move to the end.
  function Finish(words: seq<nat>, zero: Option<nat>): Result
    requires |words| <= 8 && (zero.Some? ==> zero.value <= |words|)
  {
    if zero.Some? then
      (if |words| == 8 then Error else Address(words[..zero.value] + Zeros(8 - |words|) + words[zero.value..]))
    else if |words| == 8 then Address(words) else Error
  }

  // Eight words are never exceeded.
  ghost predicate Fits(st: State) {
    |st.words| <= 7 && (st.zero.Some? ==> st.zero.value <= |st.words|)
  }

  function Scan(s: string, st: State): Result
    requires Fits(st)
    decreases s
  {
    if s == [] then
      if st.nibbles == 0 && st.zero.None? then Error else Finish(st.words + [st.word], st.zero)
    else if s[0] == ':' then
      if st.nibbles > 0 then
        (if |st.words| >= 7 then Error else Scan(s[1..], State(st.words + [st.word], st.zero, Some(s[1..]), 0, 0)))
      else if st.zero.None? then Scan(s[1..], st.(zero := Some(|st.words|), tail := Some(s[1..])))
      else Error
    else if s[0] == '.' && st.nibbles > 0 then
      if |st.words| > 6 then Error
      else if st.tail.None? then Wild
      else match InetAddr(st.tail.value)
        case None => Error
        case Some(v) => Finish(st.words + [v / 65536, v % 65536], st.zero)
    else if st.nibbles == 4 then Error
    else match HexValue(s[0])
      case None => Error
      case Some(v) => Scan(s[1..], st.(nibbles := st.nibbles + 1, word := st.word * 16 + v))
  }

  function Inet6Addr(s: string): Result {
    if s == [] then Error else Scan(if s[0] == ':' then s[1..] else s, START)
  }

  // A dot after one to four hexadecimal digits
  predicate DotFirst(t: string, n: nat) {
    t != [] && if t[0] == '.' then n > 0 else n < 4 && HexValue(t[0]).Some? && DotFirst(t[1..], n + 1)
  }

  // The texts for which ngx_inet6_addr reads through the pointer it has not set
  predicate NoColon(s: string) {
    s != [] && DotFirst(if s[0] == ':' then s[1..] else s, 0)
  }

  // Once there was a colon the pointer is set.
  lemma {:induction false} TailSet(t: string, st: State)
    requires Fits(st) && st.tail.Some?
    ensures Scan(t, st) != Wild
    decreases t
  {
    if t == [] {
    } else if t[0] == ':' {
      if st.nibbles > 0 && |st.words| < 7 {
        TailSet(t[1..], State(st.words + [st.word], st.zero, Some(t[1..]), 0, 0));
      } else if st.nibbles == 0 && st.zero.None? {
        TailSet(t[1..], st.(zero := Some(|st.words|), tail := Some(t[1..])));
      }
    } else if !(t[0] == '.' && st.nibbles > 0) && st.nibbles != 4 && HexValue(t[0]).Some? {
      TailSet(t[1..], st.(nibbles := st.nibbles + 1, word := st.word * 16 + HexValue(t[0]).value));
    }
  }

  lemma {:induction false} TailUnset(t: string, n: nat, w: nat)
    requires n <= 4
    ensures Scan(t, State([], None, None, n, w)) == Wild <==> DotFirst(t, n)
    decreases t
  {
    var st := State([], None, None, n, w);
    if t == [] {
    } else if t[0] == ':' {
      if n > 0 {
        TailSet(t[1..], State([w], None, Some(t[1..]), 0, 0));
        assert [] + [w] == [w];
      } else {
        TailSet(t[1..], st.(zero := Some(0), tail := Some(t[1..])));
      }
    } else if !(t[0] == '.' && n > 0) && n < 4 && HexValue(t[0]).Some? {
      TailUnset(t[1..], n + 1, w * 16 + HexValue(t[0]).value);
    }
  }

  lemma WildIff(s: string)
    ensures Inet6Addr(s) == Wild <==> NoColon(s)
  {
    if s != [] {
      TailUnset(if s[0] == ':' then s[1..] else s, 0, 0);
    }
  }

  // What ngx_inet6_ntop prints: the run of zero words from `zero` on, of length `max`, as a double colon, and the
  // last two words in dotted decimal where an IPv4 address is embedded.

  predicate Word(w: nat) {
    w < 65536
  }

  ghost predicate Words(ws: seq<nat>) {
    |ws| == 8 && forall i :: 0 <= i < 8 ==> Word(ws[i])
  }

  predicate Dotted(ws: seq<nat>, zero: int, max: nat)
    requires |ws| == 8
  {
    zero == 0 && ((max == 5 && ws[5] == 0xffff) || max == 6 || (max == 7 && ws[7] / 256 != 0 && ws[7] % 256 != 1))
  }

  function Quad(w: nat, v: nat): string {
    Dec(w / 256) + "." + Dec(w % 256) + "." + Dec(v / 256) + "." + Dec(v % 256)
  }

  function Body(ws: seq<nat>, zero: int, max: nat, n: nat, i: nat): string
    requires |ws| == 8 && n <= 8 && max > 0
    decreases 8 - i
  {
    if i >= n then (if n == 6 then Quad(ws[6], ws[7]) else [])
    else if i == zero then ":" + Body(ws, zero, max, n, i + max)
    else Hex(ws[i]) + (if i < 7 then ":" else "") + Body(ws, zero, max, n, i + 1)
  }

  function Print(ws: seq<nat>, zero: int, max: nat): string
    requires |ws| == 8 && max > 0
  {
    (if zero == 0 then ":" else "") + Body(ws, zero, max, if Dotted(ws, zero, max) then 6 else 8, 0)
  }

  ghost predicate ZeroRun(ws: seq<nat>, a: int, b: int) {
    0 <= a <= b <= |ws| && forall k :: a <= k < b ==> ws[k] == 0
  }

  // The run that is printed as a double colon: none, or the first of the longest of at least two words
  ghost predicate BestRun(ws: seq<nat>, zero: int, max: nat) {
    && (zero == -1 ==> max == 1) && (zero >= 0 ==> max >= 2 && ZeroRun(ws, zero, zero + max)) && zero >= -1
    && forall a, b :: ZeroRun(ws, a, b) ==> b - a <= max && (b - a == max >= 2 ==> zero <= a)
  }

  lemma HexLength(w: nat)
    ensures w < 16 ==> |Hex(w)| == 1
    ensures w < 256 ==> |Hex(w)| <= 2
    ensures w < 4096 ==> |Hex(w)| <= 3
    ensures w < 65536 ==> |Hex(w)| <= 4
  {
    assert w < 65536 ==> w / 16 < 4096 && w / 16 / 16 < 256 && w / 16 / 16 / 16 < 16;
  }

  lemma DecLength(a: nat)
    ensures a < 256 ==> |Dec(a)| <= 3
  {
    if 10 <= a < 256 {
      var b := a / 10;
      assert b < 26 && (b >= 10 ==> b / 10 < 10);
      assert |Dec(b)| <= 2 by { if b >= 10 { assert |Dec(b / 10)| == 1; } }
    }
  }

  // A printed word, or a printed octet, is read as digits.
  lemma {:induction false} ScanHex(w: nat, rest: string, st: State)
    requires Fits(st) && st.nibbles == 0 && st.word == 0 && |Hex(w)| <= 4
    ensures Scan(Hex(w) + rest, st) == Scan(rest, st.(nibbles := |Hex(w)|, word := w))
    decreases w
  {
    if w < 16 {
      assert (Hex(w) + rest)[1..] == rest;
    } else {
      var c := HexChar(w % 16);
      assert Hex(w) + rest == Hex(w / 16) + ([c] + rest);
      ScanHex(w / 16, [c] + rest, st);
      assert ([c] + rest)[1..] == rest;
    }
  }

  lemma {:induction false} ScanDec(a: nat, rest: string, st: State) returns (x: nat)
    requires Fits(st) && st.nibbles == 0 && |Dec(a)| <= 4
    ensures Scan(Dec(a) + rest, st) == Scan(rest, st.(nibbles := |Dec(a)|, word := x))
    decreases a
  {
    if a < 10 {
      assert (Dec(a) + rest)[1..] == rest;
      x := st.word * 16 + a;
    } else {
      var c := DecChar(a % 10);
      assert Dec(a) + rest == Dec(a / 10) + ([c] + rest);
      var y := ScanDec(a / 10, [c] + rest, st);
      assert ([c] + rest)[1..] == rest;
      x := y * 16 + a % 10;
    }
  }

  lemma {:induction false} OctetsDec(a: nat, rest: string, addr: nat, n: nat)
    requires a < 256
    ensures Octets(Dec(a) + rest, addr, 0, n) == Octets(rest, addr, a, n)
    decreases a
  {
    if a < 10 {
      assert (Dec(a) + rest)[1..] == rest;
    } else {
      var c := DecChar(a % 10);
      assert Dec(a) + rest == Dec(a / 10) + ([c] + rest);
      OctetsDec(a / 10, [c] + rest, addr, n);
      assert ([c] + rest)[1..] == rest;
      NoWrap(a);
    }
  }

  lemma NoWrap(a: nat)
    requires a < 256
    ensures (a / 10 * 10 + a % 10) % WRAP == a
  {}

  lemma OctetsDot(a: nat, rest: string, addr: nat, n: nat)
    requires a < 256
    ensures Octets(Dec(a) + ("." + rest), addr, 0, n) == Octets(rest, addr * 256 + a, 0, n + 1)
  {
    OctetsDec(a, "." + rest, addr, n);
    assert ("." + rest)[1..] == rest;
  }

  // A printed dotted quad is read back, unless it is the one that stands for no address.
  lemma InetAddrQuad(w: nat, v: nat)
    requires Word(w) && Word(v)
    ensures InetAddr(Quad(w, v)) == if w == v == 0xffff then None else Some(w * 65536 + v)
  {
    var a, b, c, d := w / 256, w % 256, v / 256, v % 256;
    QuadOctets(a, b, c, d, 0);
    Regroup(Dec(a), Dec(b), Dec(c), Dec(d));
    assert a * 256 + b == w && c * 256 + d == v;
  }

  lemma Regroup(a: string, b: string, c: string, d: string)
    ensures a + "." + b + "." + c + "." + d == a + ("." + (b + ("." + (c + ("." + d)))))
  {}

  lemma QuadOctets(a: nat, b: nat, c: nat, d: nat, addr: nat)
    requires a < 256 && b < 256 && c < 256 && d < 256
    ensures Octets(Dec(a) + ("." + (Dec(b) + ("." + (Dec(c) + ("." + Dec(d)))))), addr, 0,
      0) == Some((((addr * 256 + a) * 256 + b) * 256 + c) * 256 + d)
  {
    OctetsDot(a, Dec(b) + ("." + (Dec(c) + ("." + Dec(d)))), addr, 0);
    LastThree(b, c, d, addr * 256 + a);
  }

  lemma LastThree(b: nat, c: nat, d: nat, addr: nat)
    requires b < 256 && c < 256 && d < 256
    ensures Octets(Dec(b) + ("." + (Dec(c) + ("." + Dec(d)))), addr, 0,
      1) == Some(((addr * 256 + b) * 256 + c) * 256 + d)
  {
    OctetsDot(b, Dec(c) + ("." + Dec(d)), addr, 1);
    LastTwo(c, d, addr * 256 + b);
  }

  lemma LastTwo(c: nat, d: nat, addr: nat)
    requires c < 256 && d < 256
    ensures Octets(Dec(c) + ("." + Dec(d)), addr, 0, 2) == Some((addr * 256 + c) * 256 + d)
  {
    OctetsDot(c, Dec(d), addr, 2);
    LastOne(d, addr * 256 + c);
  }

  lemma LastOne(d: nat, addr: nat)
    requires d < 256
    ensures Octets(Dec(d), addr, 0, 3) == Some(addr * 256 + d)
  {
    OctetsDec(d, [], addr, 3);
    assert Dec(d) + [] == Dec(d);
  }

  lemma {:induction false} ZerosAre(ws: seq<nat>, a: int, b: int)
    requires ZeroRun(ws, a, b)
    ensures ws[a..b] == Zeros(b - a)
    decreases b - a
  {
    if a < b {
      ZerosAre(ws, a + 1, b);
      assert ws[a..b] == [ws[a]] + ws[a + 1..b];
    }
  }

  lemma Assemble(ws: seq<nat>, zero: nat, max: nat)
    requires |ws| == 8 && max > 0 && ZeroRun(ws, zero, zero + max)
    ensures Finish(ws[..zero] + ws[zero + max..], Some(zero)) == Address(ws)
  {
    ZerosAre(ws, zero, zero + max);
    var out := ws[..zero] + ws[zero + max..];
    assert out[..zero] == ws[..zero] && out[zero..] == ws[zero + max..];
    assert ws == ws[..zero] + ws[zero..zero + max] + ws[zero + max..];
  }

  // The words read when the text from word i on is left
  ghost function Read(ws: seq<nat>, zero: int, max: nat, i: nat): seq<nat>
    requires |ws| == 8 && i <= 8 && (zero >= 0 ==> zero + max <= 8) && zero >= -1
  {
    if zero < 0 || i <= zero then ws[..i] else if i < zero + max then ws[..zero] else ws[..zero] + ws[zero + max..i]
  }

  ghost function Expected(ws: seq<nat>, n: nat): Result
    requires |ws| == 8
  {
    if n == 6 && ws[6] == ws[7] == 0xffff then Error else Address(ws)
  }

  ghost predicate Printable(ws: seq<nat>, zero: int, max: nat, n: nat) {
    && Words(ws) && max > 0 && zero >= -1 && (zero >= 0 ==> max >= 2 && ZeroRun(ws, zero, zero + max))
    && (n == 8 || (n == 6 && zero == 0 && (5 <= max <= 7)))
  }

  // The state of the scanner when the text from word i on is left
  ghost function Ready(ws: seq<nat>, zero: int, max: nat, n: nat, i: nat): State
    requires Printable(ws, zero, max, n) && i <= 8
  {
    State(Read(ws, zero, max, i), if zero >= 0 && i > zero then Some(zero) else None, if i == 0 then None
      else Some(Body(ws, zero, max, n, i)), 0, 0)
  }

  // Where word i is looked at: before the run, at it, or behind it
  ghost predicate Stop(zero: int, max: nat, i: nat) {
    i <= 8 && (zero < 0 || i <= zero || zero + max <= i) && (i == 8 ==> zero >= 0 && zero + max == 8)
  }

  lemma ScanQuad(st: State, w: nat, v: nat)
    requires Word(w) && Word(v) && Fits(st) && |st.words| <= 6 && st.nibbles == 0 && st.tail == Some(Quad(w, v))
    ensures Scan(Quad(w, v), st) == if w == v == 0xffff then Error else Finish(st.words + [w, v], st.zero)
  {
    var a := w / 256;
    var rest := "." + (Dec(w % 256) + "." + Dec(v / 256) + "." + Dec(v % 256));
    assert Quad(w, v) == Dec(a) + rest;
    DecLength(a);
    var x := ScanDec(a, rest, st);
    InetAddrQuad(w, v);
    ScanDot(rest, st.(nibbles := |Dec(a)|, word := x), w, v);
  }

  lemma ScanDot(s: string, st: State, w: nat, v: nat)
    requires s != [] && s[0] == '.' && Word(w) && Word(v) && Fits(st) && |st.words| <= 6 && st.nibbles > 0 &&
      st.tail.Some?
    requires InetAddr(st.tail.value) == if w == v == 0xffff then None else Some(w * 65536 + v)
    ensures Scan(s, st) == if w == v == 0xffff then Error else Finish(st.words + [w, v], st.zero)
  {
    assert (w * 65536 + v) / 65536 == w && (w * 65536 + v) % 65536 == v;
  }

  // The end of the text: a dotted quad, nothing after a run at the end, or the last word
  lemma ReadQuad(ws: seq<nat>, max: nat, i: nat)
    requires Printable(ws, 0, max, 6) && Stop(0, max, i) && (i == 6 || (i == 7 && max == 7))
    ensures Scan(Body(ws, 0, max, 6, i), Ready(ws, 0, max, 6, i)) == Expected(ws, 6)
  {
    var st := Ready(ws, 0, max, 6, i);
    ScanQuad(st, ws[6], ws[7]);
    QuadWords(ws, max, i);
  }

  lemma QuadWords(ws: seq<nat>, max: nat, i: nat)
    requires Printable(ws, 0, max, 6) && Stop(0, max, i) && (i == 6 || (i == 7 && max == 7))
    ensures Finish(Read(ws, 0, max, i) + [ws[6], ws[7]], Some(0)) == Address(ws)
  {
    var k := if max == 7 then 6 else max;
    assert Read(ws, 0, max, i) + [ws[6], ws[7]] == ws[..0] + ws[0 + k..];
    Assemble(ws, 0, k);
  }

  lemma ReadEnd(ws: seq<nat>, zero: nat, max: nat)
    requires Printable(ws, zero, max, 8) && zero + max == 8
    ensures Scan([], Ready(ws, zero, max, 8, 8)) == Address(ws)
  {
    var st := Ready(ws, zero, max, 8, 8);
    assert ws[7] == 0 && st.words == ws[..zero];
    assert st.words + [0] == ws[..zero] + ws[zero + (max - 1)..];
    Assemble(ws, zero, max - 1);
  }

  lemma ReadLast(ws: seq<nat>, zero: int, max: nat)
    requires Printable(ws, zero, max, 8) && Stop(zero, max, 7) && zero != 7
    ensures Scan(Hex(ws[7]), Ready(ws, zero, max, 8, 7)) == Address(ws)
  {
    var st := Ready(ws, zero, max, 8, 7);
    HexLength(ws[7]);
    ScanHex(ws[7], [], st);
    assert Hex(ws[7]) + [] == Hex(ws[7]);
    LastWord(ws, zero, max);
  }

  lemma LastWord(ws: seq<nat>, zero: int, max: nat)
    requires Printable(ws, zero, max, 8) && Stop(zero, max, 7) && zero != 7
    ensures Finish(Read(ws, zero, max, 7) + [ws[7]], if 0 <= zero then Some(zero) else None) == Address(ws)
  {
    if zero < 0 {
      assert Read(ws, zero, max, 7) + [ws[7]] == ws;
    } else {
      assert Read(ws, zero, max, 7) + [ws[7]] == ws[..zero] + ws[zero + max..];
      Assemble(ws, zero, max);
    }
  }

  // A word and its colon, and the colon of the run
  lemma ReadWord(ws: seq<nat>, zero: int, max: nat, n: nat, i: nat)
    requires Printable(ws, zero, max, n) && Stop(zero, max, i) && i < 7 && i < n && i != zero
    ensures Scan(Body(ws, zero, max, n, i), Ready(ws, zero, max, n, i)) == Scan(Body(ws, zero, max, n, i + 1),
      Ready(ws, zero, max, n, i + 1))
  {
    var st, rest := Ready(ws, zero, max, n, i), Body(ws, zero, max, n, i + 1);
    assert Body(ws, zero, max, n, i) == Hex(ws[i]) + (":" + rest);
    HexLength(ws[i]);
    ScanHex(ws[i], ":" + rest, st);
    assert (":" + rest)[1..] == rest;
    ReadOn(ws, zero, max, n, i);
  }

  lemma ReadOn(ws: seq<nat>, zero: int, max: nat, n: nat, i: nat)
    requires Printable(ws, zero, max, n) && Stop(zero, max, i) && i < 7 && i < n && i != zero
    ensures Read(ws, zero, max, i + 1) == Read(ws, zero, max, i) + [ws[i]]
  {
    if zero < 0 || i < zero {
      assert ws[..i + 1] == ws[..i] + [ws[i]];
    } else {
      var m := zero + max;
      assert ws[m..i + 1] == ws[m..i] + [ws[i]];
      assert ws[..zero] + (ws[m..i] + [ws[i]]) == ws[..zero] + ws[m..i] + [ws[i]];
    }
  }

  lemma ReadRun(ws: seq<nat>, zero: nat, max: nat, n: nat, st: State)
    requires Printable(ws, zero, max, n) && (n == 6 ==> zero + max <= 7) &&
      st == Ready(ws, zero, max, n, zero).(tail := st.tail)
    ensures Scan(Body(ws, zero, max, n, zero), st) == Scan(Body(ws, zero, max, n, zero + max),
      Ready(ws, zero, max, n, zero + max))
  {
    var rest := Body(ws, zero, max, n, zero + max);
    assert (":" + rest)[1..] == rest;
    assert Read(ws, zero, max, zero + max) == ws[..zero];
  }

  lemma {:induction false} ReadBody(ws: seq<nat>, zero: int, max: nat, n: nat, i: nat)
    requires Printable(ws, zero, max, n) && Stop(zero, max, i) && (n == 6 ==> i == max || i == 6)
    ensures Scan(Body(ws, zero, max, n, i), Ready(ws, zero, max, n, i)) == Expected(ws, n)
    decreases 8 - i
  {
    if i >= n && n == 6 {
      ReadQuad(ws, max, i);
    } else if i == 8 {
      ReadEnd(ws, zero, max);
    } else if i == zero {
      ReadRun(ws, zero, max, n, Ready(ws, zero, max, n, zero));
      ReadBody(ws, zero, max, n, zero + max);
    } else if i == 7 {
      assert Body(ws, zero, max, n, 8) == [] && Body(ws, zero, max, n, 7) == Hex(ws[7]);
      ReadLast(ws, zero, max);
    } else {
      ReadWord(ws, zero, max, n, i);
      ReadBody(ws, zero, max, n, i + 1);
    }
  }

  // Parsing what was printed gives back the address, except where a dotted tail 255.255.255.255 was printed.
  lemma RoundTrip(ws: seq<nat>, zero: int, max: nat)
    requires Words(ws) && BestRun(ws, zero, max)
    ensures var s := Print(ws, zero, max);
            Inet6Addr(s) == if Dotted(ws, zero, max) && ws[6] == ws[7] == 0xffff then Error else Address(ws)
  {
    var n := if Dotted(ws, zero, max) then 6 else 8;
    var s := Print(ws, zero, max);
    if zero == 0 {
      assert s[1..] == Body(ws, zero, max, n, 0);
      ReadRun(ws, 0, max, n, START);
      ReadBody(ws, 0, max, n, max);
    } else {
      assert s == Body(ws, zero, max, n, 0) && Read(ws, zero, max, 0) == [];
      FirstChar(ws[0]);
      ReadBody(ws, zero, max, n, 0);
    }
  }

  lemma {:induction false} FirstChar(w: nat)
    ensures Hex(w) != [] && Hex(w)[0] != ':'
  {
    if w >= 16 { FirstChar(w / 16); }
  }

  // The first loop of ngx_inet6_ntop
  method FindRun(ws: seq<nat>) returns (zero: int, max: nat)
    requires |ws| == 8
    ensures BestRun(ws, zero, max)
  {
    zero, max := -1, 1;
    var last, n := -1, 0;
    for i := 0 to 8
      invariant 0 <= n <= i && ZeroRun(ws, i - n, i) && (i - n > 0 ==> ws[i - n - 1] != 0) && (n > 0 ==> last == i - n)
      invariant (zero == -1 ==> max == 1) &&
        (zero >= 0 ==> max >= 2 && ZeroRun(ws, zero, zero + max) && zero + max < i - n + 1) && zero >= -1
      invariant forall a, b :: ZeroRun(ws, a, b) && b <= i - n ==> b - a <= max && (b - a == max >= 2 ==> zero <= a)
    {
      if ws[i] != 0 {
        if max < n {
          zero, max := last, n;
        }
        n := 0;
      } else {
        if n == 0 {
          last := i;
        }
        n := n + 1;
      }
    }
    if max < n {
      zero, max := last, n;
    }
  }

  // ngx_inet6_ntop
  method Ntop(ws: seq<nat>) returns (text: string, zero: int, max: nat)
    requires |ws| == 8
    ensures BestRun(ws, zero, max) && text == Print(ws, zero, max)
  {
    zero, max := FindRun(ws);
    text := "";
    var n := 8;
    if zero == 0 {
      if (max == 5 && ws[5] == 0xffff) || max == 6 || (max == 7 && ws[7] / 256 != 0 && ws[7] % 256 != 1) {
        n := 6;
      }
      text := ":";
    }
    var body := PrintBody(ws, zero, max, n, 0);
    text := text + body;
  }

  // Its second loop, from word i0 on
  method PrintBody(ws: seq<nat>, zero: int, max: nat, n: nat, i0: nat) returns (text: string)
    requires |ws| == 8 && n <= 8 && max > 0
    ensures text == Body(ws, zero, max, n, i0)
  {
    text := "";
    var i := i0;
    while i < n
      invariant text + Body(ws, zero, max, n, i) == Body(ws, zero, max, n, i0)
    {
      ghost var rest := Body(ws, zero, max, n, i);
      if i == zero {
        assert text + (":" + Body(ws, zero, max, n, i + max)) == (text + ":") + Body(ws, zero, max, n, i + max);
        text := text + ":";
        i := i + max;
      } else {
        var word := Hex(ws[i]);
        if i < 7 {
          word := word + ":";
        }
        assert text + (word + Body(ws, zero, max, n, i + 1)) == (text + word) + Body(ws, zero, max, n, i + 1);
        text := text + word;
        i := i + 1;
      }
    }
    if n == 6 {
      text := text + Quad(ws[6], ws[7]);
    }
  }

  // ngx_inet_addr
  method ParseQuad(s: string) returns (r: Option<nat>)
    ensures r == InetAddr(s)
  {
    var addr, octet, n := 0, 0, 0;
    for p := 0 to |s|
      invariant addr >= 0 && octet >= 0 && n >= 0 && Octets(s[p..], addr, octet, n) == Octets(s, 0, 0, 0)
    {
      assert s[p..][0] == s[p] && s[p..][1..] == s[p + 1..];
      if '0' <= s[p] <= '9' {
        octet := (octet * 10 + (s[p] as int - '0' as int)) % WRAP;
      } else if s[p] == '.' && octet < 256 {
        addr, octet, n := addr * 256 + octet, 0, n + 1;
      } else {
        return None;
      }
    }
    if n != 3 || octet >= 256 || addr * 256 + octet == INADDR_NONE {
      return None;
    }
    r := Some(addr * 256 + octet);
  }

  // The words behind the double colon move to the end, the gap is cleared.
  method Spread(addr: array<nat>, k: nat, zero: nat)
    requires addr.Length == 8 && zero <= k < 8
    modifies addr
    ensures addr[..] == old(addr[..zero]) + Zeros(8 - k) + old(addr[zero..k])
  {
    MoveUp(addr, k, zero);
    forall i | zero <= i < zero + (8 - k) {
      addr[i] := 0;
    }
    Spreading(old(addr[..]), addr[..], k, zero);
  }

  method MoveUp(addr: array<nat>, k: nat, zero: nat)
    requires addr.Length == 8 && zero <= k < 8
    modifies addr
    ensures forall i :: 0 <= i < zero ==> addr[i] == old(addr[i])
    ensures forall j :: zero + 8 - k <= j < 8 ==> addr[j] == old(addr[j - (8 - k)])
  {
    var s, n := k - 1, 8 - k;
    while s >= zero
      invariant zero - 1 <= s < k
      invariant forall i :: 0 <= i <= s ==> addr[i] == old(addr[i])
      invariant forall j :: s + n < j < 8 ==> addr[j] == old(addr[j - n])
    {
      addr[s + n] := addr[s];
      s := s - 1;
    }
  }

  lemma Spreading(a: seq<nat>, b: seq<nat>, k: nat, zero: nat)
    requires |a| == |b| == 8 && zero <= k < 8 && ZeroRun(b, zero, zero + 8 - k)
    requires (forall i :: 0 <= i < zero ==> b[i] == a[i]) &&
      (forall j :: zero + 8 - k <= j < 8 ==> b[j] == a[j - (8 - k)])
    ensures b == a[..zero] + Zeros(8 - k) + a[zero..k]
  {
    var m := zero + 8 - k;
    ZerosAre(b, zero, m);
    assert b == b[..zero] + b[zero..m] + b[m..];
    assert b[m..] == a[zero..k];
  }

  // Whether the caller's eight words and the return code are what the scan says
  ghost predicate Stored(r: Result, ok: bool, addr: seq<nat>) {
    ok == r.Address? && (ok ==> addr == r.words)
  }

  // The part of ngx_inet6_addr after its loop: k words are stored, `word` is the last one.
  method Close(addr: array<nat>, k: nat, zero: Option<nat>, word: nat) returns (ok: bool)
    requires addr.Length == 8 && k <= 7 && (zero.Some? ==> zero.value <= k)
    modifies addr
    ensures Stored(Finish(old(addr[..k]) + [word], zero), ok, addr[..])
  {
    addr[k] := word;
    assert addr[..k + 1] == old(addr[..k]) + [word];
    if k + 1 < 8 {
      if zero.Some? {
        assert addr[..zero.value] == addr[..k + 1][..zero.value] &&
          addr[zero.value..k + 1] == addr[..k + 1][zero.value..];
        Spread(addr, k + 1, zero.value);
        return true;
      }
      return false;
    }
    assert addr[..] == addr[..k + 1];
    ok := zero.None?;
  }

  // What the loop variables stand for
  ghost function Now(addr: seq<nat>, zero: Option<nat>, s: string, digit: Option<nat>, nibbles: nat, word: nat): State
    requires digit.Some? ==> digit.value <= |s|
  {
    State(addr, zero, if digit.Some? then Some(s[digit.value..]) else None, nibbles, word)
  }

  // ngx_inet6_addr; `lost` says that it read through the pointer it has not set, after which nothing is known.
  method ParseInet6(s: string, addr: array<nat>) returns (ok: bool, lost: bool)
    requires addr.Length == 8
    modifies addr
    ensures lost <==> NoColon(s)
    ensures !lost ==> Stored(Inet6Addr(s), ok, addr[..])
  {
    WildIff(s);
    ok, lost := false, false;
    if s == [] {
      return;
    }
    var p := if s[0] == ':' then 1 else 0;
    var zero: Option<nat>, digit: Option<nat> := None, None;
    var k: nat, nibbles: nat, word: nat := 0, 0, 0;
    ghost var r := Inet6Addr(s);
    assert s[0..] == s && addr[..0] == [];
    while p < |s|
      invariant p <= |s| && k <= 7 && nibbles <= 4 && (digit.Some? ==> digit.value <= |s|) &&
        Fits(Now(addr[..k], zero, s, digit, nibbles, word))
      invariant Scan(s[p..], Now(addr[..k], zero, s, digit, nibbles, word)) == r
    {
      var c := s[p];
      assert s[p..][0] == c && s[p..][1..] == s[p + 1..];
      p := p + 1;
      if c == ':' {
        if nibbles > 0 {
          digit := Some(p);
          ghost var stored := addr[..k];
          addr[k] := word;
          assert addr[..k + 1] == stored + [word];
          if k == 7 {
            return;
          }
          k, nibbles, word := k + 1, 0, 0;
        } else if zero.None? {
          digit, zero := Some(p), Some(k);
        } else {
          return;
        }
      } else if c == '.' && nibbles > 0 {
        ok, lost := Dot(s, addr, k, zero, digit);
        return;
      } else {
        nibbles := nibbles + 1;
        if nibbles > 4 {
          return;
        }
        var v := HexValue(c);
        if v.None? {
          return;
        }
        word := word * 16 + v.value;
      }
    }
    if nibbles == 0 && zero.None? {
      return;
    }
    ok := Close(addr, k, zero, word);
  }

  // A dot: the text after the last colon is an IPv4 address.
  method Dot(s: string, addr: array<nat>, k: nat, zero: Option<nat>, digit: Option<nat>) returns (ok: bool, lost: bool)
    requires addr.Length == 8 && k <= 7 && (zero.Some? ==> zero.value <= k) && (digit.Some? ==> digit.value <= |s|)
    modifies addr
    ensures lost <==> k <= 6 && digit.None?
    ensures k > 6 ==> !ok
    ensures k <= 6 && digit.Some? ==> Stored(match InetAddr(s[digit.value..])
                                             case None => Error
                                             case Some(v) => Finish(old(addr[..k]) + [v / 65536, v % 65536], zero),
                                             ok, addr[..])
  {
    ok, lost := false, k <= 6 && digit.None?;
    if k > 6 || lost {
      return;
    }
    var q := ParseQuad(s[digit.value..]);
    if q.None? {
      return;
    }
    addr[k] := q.value / 65536;
    assert addr[..k + 1] + [q.value % 65536] == old(addr[..k]) + [q.value / 65536, q.value % 65536];
    ok := Close(addr, k + 1, zero, q.value % 65536);
  }

  // The first step of ngx_ptocidr: what the IPv4 parser refuses goes to the IPv6 parser.
  method ParseEither(s: string, addr: array<nat>) returns (quad: Option<nat>, ok: bool, lost: bool)
    requires addr.Length == 8
    modifies addr
    ensures quad == InetAddr(s) && (lost <==> InetAddr(s).None? && NoColon(s))
    ensures quad.None? && !lost ==> Stored(Inet6Addr(s), ok, addr[..])
  {
    quad := ParseQuad(s);
    ok, lost := quad.Some?, false;
    if quad.None? {
      ok, lost := ParseInet6(s, addr);
    }
  }

  // Of the dotted quads exactly 255.255.255.255 is lost there, whose value is the one that stands for no address.
  lemma QuadLost(w: nat, v: nat)
    requires Word(w) && Word(v)
    ensures InetAddr(Quad(w, v)).None? && NoColon(Quad(w, v)) <==> w == v == 0xffff
  {
    InetAddrQuad(w, v);
    QuadNoColon(w / 256, Dec(w % 256), Dec(v / 256), Dec(v % 256));
  }

  lemma QuadNoColon(a: nat, b: string, c: string, d: string)
    requires a < 256
    ensures NoColon(Dec(a) + "." + b + "." + c + "." + d)
  {
    var rest := b + ("." + (c + ("." + d)));
    Regroup(Dec(a), b, c, d);
    DecDigits(a);
    DecLength(a);
    DigitsDot(Dec(a), rest, 0);
    assert (Dec(a) + ("." + rest))[0] == Dec(a)[0];
  }

  ghost predicate AllDigits(d: string) {
    forall i :: 0 <= i < |d| ==> '0' <= d[i] <= '9'
  }

  lemma {:induction false} DecDigits(n: nat)
    ensures Dec(n) != [] && AllDigits(Dec(n))
    decreases n
  {
    if n >= 10 { DecDigits(n / 10); }
  }

  lemma {:induction false} DigitsDot(d: string, rest: string, n: nat)
    requires AllDigits(d) && 0 < |d| + n <= 4
    ensures DotFirst(d + ("." + rest), n)
    decreases d
  {
    if d == [] {
      assert d + ("." + rest) == "." + rest;
    } else {
      DigitsDot(d[1..], rest, n + 1);
      assert (d + ("." + rest))[1..] == d[1..] + ("." + rest);
    }
  }

  lemma AllOnesLost()
    ensures InetAddr("255.255.255.255").None? && NoColon("255.255.255.255")
  {
    AllOnesText();
    QuadLost(0xffff, 0xffff);
  }

  lemma AllOnesText()
    ensures Quad(0xffff, 0xffff) == "255.255.255.255"
  {
    assert Dec(25) == "25";
    assert Dec(255) == "255";
  }

  // ::ffff:255.255.255.255 is printed and not read back.
  lemma Broadcast()
    ensures var ws := [0, 0, 0, 0, 0, 0xffff, 0xffff, 0xffff];
            BestRun(ws, 0, 5) && Inet6Addr(Print(ws, 0, 5)) == Error
  {
    var ws := [0, 0, 0, 0, 0, 0xffff, 0xffff, 0xffff];
    assert ws[5] != 0 && ws[6] != 0 && ws[7] != 0;
    RoundTrip(ws, 0, 5);
  }
}
