/** ngx_escape_uri and ngx_unescape_uri of nginx/src/core/ngx_string.c, and section 2.1 of RFC 3986.  Bytes are
    integers from 0 to 255. */
module Uri {

  type Byte = b: int | 0 <= b < 256

  const PERCENT: Byte := 37
  const QUESTION: Byte := 63

  // The characters that are escaped, as eight words of 32 bits
  datatype Kind = URI | ARGS | HTML | REFRESH | MEMCACHED | MAIL_AUTH

  function Mask(kind: Kind, w: int): nat
    requires 0 <= w < 8
  {
    if w == 0 then 0xffffffff
    else if w == 1 then
      match kind
      case URI => 0x80000029
      case ARGS => 0x88000869
      case HTML => 0x000000ad
      case REFRESH => 0x00000085
      case _ => 0x00000021
    else if w == 2 || kind == MEMCACHED || kind == MAIL_AUTH then 0
    else if w == 3 then 0x80000000
    else 0xffffffff
  }

  function Bit(k: int): nat {
    if k == 0 then 0x1
    else if k == 1 then 0x2
    else if k == 2 then 0x4
    else if k == 3 then 0x8
    else if k == 4 then 0x10
    else if k == 5 then 0x20
    else if k == 6 then 0x40
    else if k == 7 then 0x80
    else if k == 8 then 0x100
    else if k == 9 then 0x200
    else if k == 10 then 0x400
    else if k == 11 then 0x800
    else if k == 12 then 0x1000
    else if k == 13 then 0x2000
    else if k == 14 then 0x4000
    else if k == 15 then 0x8000
    else if k == 16 then 0x10000
    else if k == 17 then 0x20000
    else if k == 18 then 0x40000
    else if k == 19 then 0x80000
    else if k == 20 then 0x100000
    else if k == 21 then 0x200000
    else if k == 22 then 0x400000
    else if k == 23 then 0x800000
    else if k == 24 then 0x1000000
    else if k == 25 then 0x2000000
    else if k == 26 then 0x4000000
    else if k == 27 then 0x8000000
    else if k == 28 then 0x10000000
    else if k == 29 then 0x20000000
    else if k == 30 then 0x40000000
    else 0x80000000
  }

  predicate Escaped(kind: Kind, c: Byte) {
    Mask(kind, c / 32) / Bit(c % 32) % 2 == 1
  }

  function HexDigit(d: int): Byte
    requires 0 <= d < 16
  {
    if d < 10 then 48 + d else 97 + d - 10
  }

  // e says which bytes are escaped.
  function Escape(e: Byte -> bool, s: seq<Byte>): seq<Byte> {
    if s == [] then []
    else (if e(s[0]) then [PERCENT, HexDigit(s[0] / 16), HexDigit(s[0] % 16)] else [s[0]]) + Escape(e, s[1..])
  }

  function Table(kind: Kind): Byte -> bool {
    (c: Byte) => Escaped(kind, c)
  }

  ghost predicate Sound(e: Byte -> bool) {
    forall d {:trigger HexDigit(d)} :: 0 <= d < 16 ==> !e(HexDigit(d))
  }

  // Only the REFRESH table leaves the percent sign alone, and none touches a hexadecimal digit.
  lemma PercentEscaped(kind: Kind)
    ensures Escaped(kind, PERCENT) <==> kind != REFRESH
  {
    assert Bit(5) == 32;
  }

  lemma DigitsPlain(kind: Kind, d: int)
    requires 0 <= d < 16
    ensures !Escaped(kind, HexDigit(d))
  {}

  // The value of a hexadecimal digit, or -1
  function HexValue(c: Byte): int {
    if 48 <= c <= 57 then c - 48
    else if 97 <= c <= 102 then c - 97 + 10
    else if 65 <= c <= 70 then c - 65 + 10
    else -1
  }

  datatype Mode = Mode(uri: bool, redirect: bool)

  const PLAIN := Mode(false, false)

  datatype State = Usual | Quoted | Second(decoded: int, first: Byte)

  predicate Proper(st: State) {
    st.Second? ==> 0 <= st.decoded < 16
  }

  // What one character does: the bytes written, and the next state, or that the rest is left alone
  datatype Step = Go(out: seq<Byte>, st: State) | Done(out: seq<Byte>)

  function StepOn(st: State, ch: Byte, m: Mode): (r: Step)
    requires Proper(st)
    ensures r.Go? ==> Proper(r.st)
  {
    match st
    case Usual =>
      if ch == QUESTION && (m.uri || m.redirect) then Done([ch])
      else if ch == PERCENT then Go([], Quoted)
      else Go([ch], Usual)
    case Quoted =>
      if HexValue(ch) >= 0 then Go([], Second(HexValue(ch), ch)) else Go([ch], Usual)
    case Second(d, first) =>
      var v := HexValue(ch);
      if v < 0 then Go([], Usual)
      else
        var b := d * 16 + v;
        if v >= 10 && b == QUESTION && (m.uri || m.redirect) then Done([b])
        else if m.redirect && !(v >= 10 && m.uri) && !(PERCENT < b < 0x7f) then Go([PERCENT, first, ch], Usual)
        else Go([b], Usual)
  }

  function Unescape(t: seq<Byte>, st: State, m: Mode): seq<Byte>
    requires Proper(st)
    decreases t
  {
    if t == [] then []
    else match StepOn(st, t[0], m)
      case Go(out, st') => out + Unescape(t[1..], st', m)
      case Done(out) => out
  }

  // Undoing an escape: what comes out for s when it has been escaped, from any state
  ghost function Back(e: Byte -> bool, s: seq<Byte>, st: State): seq<Byte>
    requires Proper(st)
  {
    Unescape(Escape(e, s), st, PLAIN)
  }

  lemma UnescapeStep(c: Byte, t: seq<Byte>, st: State)
    requires Proper(st) && StepOn(st, c, PLAIN).Go?
    ensures Unescape([c] + t, st, PLAIN) == StepOn(st, c, PLAIN).out + Unescape(t, StepOn(st, c, PLAIN).st, PLAIN)
  {
    assert ([c] + t)[1..] == t;
  }

  lemma EscapeHead(e: Byte -> bool, b: Byte, s: seq<Byte>)
    ensures Escape(e, [b] + s) == (if e(b) then [PERCENT, HexDigit(b / 16), HexDigit(b % 16)] else [b]) + Escape(e, s)
  {
    assert ([b] + s)[1..] == s;
  }

  lemma Nothing(u: seq<Byte>)
    ensures [] + u == u
  {}

  // An escaped byte met in the usual state comes out as it was; met after a percent sign, or after one and a digit,
  // its own percent sign is taken for what should follow, and its digits stay.
  lemma BackEscaped(e: Byte -> bool, b: Byte, s: seq<Byte>, st: State)
    requires e(b) && Proper(st)
    ensures var x, y, u := HexDigit(b / 16), HexDigit(b % 16), Back(e, s, Usual);
            Back(e, [b] + s, st) == match st
              case Usual => [b] + u
              case Quoted => [PERCENT] + ([x] + ([y] + u))
              case Second(_, _) => [x] + ([y] + u)
  {
    var x, y, t, u := HexDigit(b / 16), HexDigit(b % 16), Escape(e, s), Back(e, s, Usual);
    EscapeHead(e, b, s);
    assert Escape(e, [b] + s) == [PERCENT] + ([x] + ([y] + t));
    UnescapeStep(PERCENT, [x] + ([y] + t), st);
    if st == Usual {
      UnescapeStep(x, [y] + t, Quoted);
      UnescapeStep(y, t, Second(b / 16, x));
      Nothing([b] + u);
    } else {
      UnescapeStep(x, [y] + t, Usual);
      UnescapeStep(y, t, Usual);
      Nothing([x] + ([y] + u));
    }
  }

  lemma BackPlain(e: Byte -> bool, b: Byte, s: seq<Byte>, st: State)
    requires !e(b) && Proper(st)
    ensures StepOn(st, b, PLAIN).Go? &&
      Back(e, [b] + s, st) == StepOn(st, b, PLAIN).out + Back(e, s, StepOn(st, b, PLAIN).st)
  {
    EscapeHead(e, b, s);
    UnescapeStep(b, Escape(e, s), st);
  }

  // Every other table: unescaping gives back every string.
  lemma {:induction false} BackIsSame(e: Byte -> bool, s: seq<Byte>)
    requires e(PERCENT)
    ensures Back(e, s, Usual) == s
  {
    if s != [] {
      assert s == [s[0]] + s[1..];
      BackIsSame(e, s[1..]);
      if e(s[0]) {
        BackEscaped(e, s[0], s[1..], Usual);
      } else {
        BackPlain(e, s[0], s[1..], Usual);
      }
    }
  }

  // The REFRESH table does not escape the percent sign, and a string with one never comes back: what comes out weighs
  // less, if a byte that is escaped weighs three, a percent sign two, and any other byte one.

  function Heavy(e: Byte -> bool, c: Byte): nat {
    if e(c) then 3 else if c == PERCENT then 2 else 1
  }

  function Weight(e: Byte -> bool, s: seq<Byte>): nat {
    if s == [] then 0 else Heavy(e, s[0]) + Weight(e, s[1..])
  }

  lemma WeightCons(e: Byte -> bool, c: Byte, s: seq<Byte>)
    ensures Weight(e, [c] + s) == Heavy(e, c) + Weight(e, s)
  {
    assert ([c] + s)[1..] == s;
  }

  predicate HasPercent(s: seq<Byte>) {
    s != [] && (s[0] == PERCENT || HasPercent(s[1..]))
  }

  lemma HeadPercent(b: Byte, r: seq<Byte>)
    ensures HasPercent([b] + r) == (b == PERCENT || HasPercent(r))
  {
    assert ([b] + r)[1..] == r;
  }

  // The weight of what has been read when a state is reached: a percent sign, and a digit
  function Held(st: State): nat {
    match st
    case Usual => 0
    case Quoted => 2
    case Second(_, _) => 3
  }

  // What comes out is lighter than what went in, or as heavy if there was no percent sign.
  predicate Bound(out: nat, st: State, rest: nat, percent: bool) {
    out < Held(st) + rest || (st == Usual && !percent && out == rest)
  }

  lemma {:induction false} Shrink(e: Byte -> bool, s: seq<Byte>, st: State)
    requires Proper(st) && Sound(e) && !e(PERCENT)
    ensures Bound(Weight(e, Back(e, s, st)), st, Weight(e, s), HasPercent(s))
    decreases s
  {
    if s != [] {
      var b, r := s[0], s[1..];
      assert s == [b] + r;
      HeadPercent(b, r);
      if e(b) {
        Shrink(e, r, Usual);
        var x, y := DigitsOf(e, b, r, st, Back(e, r, Usual), Back(e, s, st));
        EscapedOut(e, b, r, st, Back(e, r, Usual), Back(e, s, st), x, y);
      } else {
        BackPlain(e, b, r, st);
        Shrink(e, r, StepOn(st, b, PLAIN).st);
        PlainOut(e, b, r, st, Back(e, r, StepOn(st, b, PLAIN).st), Back(e, s, st));
      }
    }
  }

  lemma DigitsOf(e: Byte -> bool, b: Byte, r: seq<Byte>, st: State, u: seq<Byte>, v: seq<Byte>)
      returns (x: Byte, y: Byte)
    requires Proper(st) && e(b) && Sound(e) && u == Back(e, r, Usual) && v == Back(e, [b] + r, st)
    ensures Heavy(e, x) == 1 && Heavy(e, y) == 1
    ensures v == match st case Usual => [b] + u case Quoted => [PERCENT] + ([x] + ([y] + u)) case Second(_,
      _) => [x] + ([y] + u)
  {
    BackEscaped(e, b, r, st);
    x, y := HexDigit(b / 16), HexDigit(b % 16);
  }

  lemma EscapedOut(e: Byte -> bool, b: Byte, r: seq<Byte>, st: State, u: seq<Byte>, v: seq<Byte>, x: Byte, y: Byte)
    requires e(b) && !e(PERCENT) && Heavy(e, x) == 1 && Heavy(e, y) == 1
    requires v == match st case Usual => [b] + u case Quoted => [PERCENT] + ([x] + ([y] + u)) case Second(_,
      _) => [x] + ([y] + u)
    requires Bound(Weight(e, u), Usual, Weight(e, r), HasPercent(r))
    ensures Bound(Weight(e, v), st, Weight(e, [b] + r), HasPercent(r))
  {
    WeightCons(e, b, r);
    WeightCons(e, b, u);
    WeightCons(e, y, u);
    WeightCons(e, x, [y] + u);
    WeightCons(e, PERCENT, [x] + ([y] + u));
  }

  lemma PlainOut(e: Byte -> bool, b: Byte, r: seq<Byte>, st: State, u: seq<Byte>, v: seq<Byte>)
    requires Proper(st) && !e(b) && !e(PERCENT) && StepOn(st, b, PLAIN).Go? && v == StepOn(st, b, PLAIN).out + u
    requires Bound(Weight(e, u), StepOn(st, b, PLAIN).st, Weight(e, r), HasPercent(r))
    ensures Bound(Weight(e, v), st, Weight(e, [b] + r), b == PERCENT || HasPercent(r))
  {
    WeightCons(e, b, r);
    OutWeight(e, st, b, u);
    assert Weight(e, v) == OutHeavy(e, st, b) + Weight(e, u);
  }

  function OutHeavy(e: Byte -> bool, st: State, b: Byte): nat
    requires Proper(st) && StepOn(st, b, PLAIN).Go?
  {
    var out := StepOn(st, b, PLAIN).out;
    if out == [] then 0 else Heavy(e, out[0])
  }

  lemma OutWeight(e: Byte -> bool, st: State, b: Byte, u: seq<Byte>)
    requires Proper(st) && StepOn(st, b, PLAIN).Go?
    ensures Weight(e, StepOn(st, b, PLAIN).out + u) == OutHeavy(e, st, b) + Weight(e, u)
  {
    var out := StepOn(st, b, PLAIN).out;
    if out == [] {
      Nothing(u);
    } else {
      assert out == [out[0]];
      WeightCons(e, out[0], u);
    }
  }

  // A table undoes itself on every string if it escapes the percent sign, and else on those without one.
  lemma BackIff(e: Byte -> bool, s: seq<Byte>)
    requires Sound(e)
    ensures Back(e, s, Usual) == s <==> e(PERCENT) || !HasPercent(s)
  {
    if e(PERCENT) {
      BackIsSame(e, s);
    } else if HasPercent(s) {
      Shrink(e, s, Usual);
    } else {
      BackWithout(e, s);
    }
  }

  lemma {:induction false} BackWithout(e: Byte -> bool, s: seq<Byte>)
    requires !HasPercent(s)
    ensures Back(e, s, Usual) == s
  {
    if s != [] {
      assert s == [s[0]] + s[1..];
      BackWithout(e, s[1..]);
      if e(s[0]) {
        BackEscaped(e, s[0], s[1..], Usual);
      } else {
        BackPlain(e, s[0], s[1..], Usual);
      }
    }
  }

  // Unescaping undoes escaping with every table but REFRESH, and with that exactly on strings without a percent sign.
  lemma RoundTrip(kind: Kind, s: seq<Byte>)
    ensures Unescape(Escape(Table(kind), s), Usual, PLAIN) == s <==> kind != REFRESH || !HasPercent(s)
  {
    var e := Table(kind);
    PercentEscaped(kind);
    forall d | 0 <= d < 16 ensures !e(HexDigit(d)) { DigitsPlain(kind, d); }
    BackIff(e, s);
  }

  lemma PercentLost()
    ensures Unescape(Escape(Table(REFRESH), [PERCENT]), Usual, PLAIN) != [PERCENT]
  {
    RoundTrip(REFRESH, [PERCENT]);
    assert HasPercent([PERCENT]);
  }

  // The number of bytes to be escaped, from which callers reckon the length
  function Count(e: Byte -> bool, s: seq<Byte>): nat {
    if s == [] then 0 else (if e(s[0]) then 1 else 0) + Count(e, s[1..])
  }

  lemma {:induction false} EscapedLength(e: Byte -> bool, s: seq<Byte>)
    ensures |Escape(e, s)| == |s| + 2 * Count(e, s)
  {
    if s != [] {
      EscapedLength(e, s[1..]);
    }
  }

  // ngx_escape_uri without a destination
  method CountUri(src: seq<Byte>, kind: Kind) returns (n: nat)
    ensures |Escape(Table(kind), src)| == |src| + 2 * n
  {
    ghost var e := Table(kind);
    n := 0;
    assert src[0..] == src;
    for i := 0 to |src|
      invariant n + Count(e, src[i..]) == Count(e, src)
    {
      assert src[i..][0] == src[i] && src[i..][1..] == src[i + 1..];
      if Escaped(kind, src[i]) {
        n := n + 1;
      }
    }
    EscapedLength(e, src);
  }

  lemma Regroup(a: seq<Byte>, b: seq<Byte>, c: seq<Byte>)
    ensures a + (b + c) == (a + b) + c
  {}

  // ngx_escape_uri
  method EscapeUri(src: seq<Byte>, kind: Kind) returns (dst: seq<Byte>)
    ensures dst == Escape(Table(kind), src)
  {
    ghost var e := Table(kind);
    dst := [];
    assert src[0..] == src;
    for i := 0 to |src|
      invariant dst + Escape(e, src[i..]) == Escape(e, src)
    {
      assert src[i..][0] == src[i] && src[i..][1..] == src[i + 1..];
      var out := if Escaped(kind, src[i]) then [PERCENT, HexDigit(src[i] / 16), HexDigit(src[i] % 16)] else [src[i]];
      Regroup(dst, out, Escape(e, src[i + 1..]));
      dst := dst + out;
    }
  }

  // How many characters are read
  function Consumed(t: seq<Byte>, st: State, m: Mode): nat
    requires Proper(st)
    decreases t
  {
    if t == [] then 0
    else match StepOn(st, t[0], m)
      case Go(_, st') => 1 + Consumed(t[1..], st', m)
      case Done(_) => 1
  }

  // Only a question mark, when one ends the work, leaves something unread, and what is unread does not matter.
  lemma {:induction false} ReadUpTo(t: seq<Byte>, st: State, m: Mode)
    requires Proper(st)
    ensures Consumed(t, st, m) <= |t| && Unescape(t[..Consumed(t, st, m)], st, m) == Unescape(t, st, m)
    ensures Consumed(t, st, m) < |t| ==>
              var u := Unescape(t, st, m); (m.uri || m.redirect) && u != [] && u[|u| - 1] == QUESTION
    decreases t
  {
    if t != [] {
      var n, step := Consumed(t, st, m), StepOn(st, t[0], m);
      if step.Go? {
        ReadUpTo(t[1..], step.st, m);
        assert t[..n][0] == t[0] && t[..n][1..] == t[1..][..n - 1];
      } else {
        assert t[..n][0] == t[0];
      }
    }
  }

  // ngx_unescape_uri: the bytes written, and how many have been read
  method UnescapeUri(src: seq<Byte>, m: Mode) returns (dst: seq<Byte>, read: nat)
    ensures dst == Unescape(src, Usual, m) && read == Consumed(src, Usual, m)
  {
    dst := [];
    var st := Usual;
    assert src[0..] == src;
    for i := 0 to |src|
      invariant Proper(st) && dst + Unescape(src[i..], st, m) == Unescape(src, Usual, m)
      invariant i + Consumed(src[i..], st, m) == Consumed(src, Usual, m)
    {
      assert src[i..][0] == src[i] && src[i..][1..] == src[i + 1..];
      var step := StepOn(st, src[i], m);
      if step.Done? {
        return dst + step.out, i + 1;
      }
      Regroup(dst, step.out, Unescape(src[i + 1..], step.st, m));
      dst, st := dst + step.out, step.st;
    }
    read := |src|;
  }
}
