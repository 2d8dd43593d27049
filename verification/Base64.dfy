/** ngx_encode_base64 and ngx_decode_base64 of nginx/src/core/ngx_string.c, and section 4 of RFC 4648.  Bytes are
    integers from 0 to 255. */
module Base64 {

  type Byte = b: int | 0 <= b < 256

  // The alphabet, and its inverse with 77 for every other character
  function Letter(v: int): Byte
    requires 0 <= v < 64
  {
    if v < 26 then 65 + v
    else if v < 52 then 97 + v - 26
    else if v < 62 then 48 + v - 52
    else if v == 62 then 43
    else 47
  }

  const BAD := 77

  function Value(c: Byte): int {
    if 65 <= c <= 90 then c - 65
    else if 97 <= c <= 122 then c - 97 + 26
    else if 48 <= c <= 57 then c - 48 + 52
    else if c == 43 then 62
    else if c == 47 then 63
    else BAD
  }

  const PAD: Byte := 61

  lemma ValueOfLetter(v: int)
    requires 0 <= v < 64
    ensures Value(Letter(v)) == v && Letter(v) != PAD
  {}

  // The letters for a string: four for three bytes, two or three for what is left
  function Letters(s: seq<Byte>): seq<Byte> {
    if s == [] then []
    else if |s| == 1 then [Letter(s[0] / 4), Letter(s[0] % 4 * 16)]
    else if |s| == 2 then [Letter(s[0] / 4), Letter(s[0] % 4 * 16 + s[1] / 16), Letter(s[1] % 16 * 4)]
    else [Letter(s[0] / 4), Letter(s[0] % 4 * 16 + s[1] / 16), Letter(s[1] % 16 * 4 + s[2] / 64),
      Letter(s[2] % 64)] + Letters(s[3..])
  }

  function Padding(n: nat): seq<Byte> {
    if n % 3 == 0 then [] else if n % 3 == 1 then [PAD, PAD] else [PAD]
  }

  function Encode(s: seq<Byte>): seq<Byte> {
    Letters(s) + Padding(|s|)
  }

  // The characters before the first '='
  function Text(t: seq<Byte>): seq<Byte> {
    if t == [] || t[0] == PAD then [] else [t[0]] + Text(t[1..])
  }

  predicate AllGood(t: seq<Byte>) {
    t == [] || (Value(t[0]) != BAD && AllGood(t[1..]))
  }

  // The bytes of a text of good characters; a shift that leaves a byte is cut off.
  function Bytes(t: seq<Byte>): seq<Byte> {
    if |t| < 2 then []
    else
      var a, b := Value(t[0]), Value(t[1]);
      if |t| == 2 then [Join(a * 4, b / 16)]
      else
        var c := Value(t[2]);
        if |t| == 3 then [Join(a * 4, b / 16), Join(b * 16, c / 4)]
        else
          var d := Value(t[3]);
          [Join(a * 4, b / 16), Join(b * 16, c / 4), Join(c * 64, d)] + Bytes(t[4..])
  }

  // (u_char) (x | y) where x has zeros where y has its bits
  function Join(x: int, y: int): Byte {
    (x + y) % 256
  }

  datatype Decoded = Ok(bytes: seq<Byte>) | Error

  function Decode(t: seq<Byte>): Decoded {
    var u := Text(t);
    if !AllGood(u) || |u| % 4 == 1 then Error else Ok(Bytes(u))
  }

  predicate NoPad(t: seq<Byte>) {
    t == [] || (t[0] != PAD && NoPad(t[1..]))
  }

  lemma {:induction false} TextBefore(t: seq<Byte>, p: seq<Byte>)
    requires NoPad(t) && (p == [] || p[0] == PAD)
    ensures Text(t + p) == t
  {
    if t == [] {
      assert t + p == p;
    } else {
      assert (t + p)[1..] == t[1..] + p;
      TextBefore(t[1..], p);
    }
  }

  predicate Good(t: seq<Byte>) {
    NoPad(t) && AllGood(t)
  }

  lemma Prepend(v: int, r: seq<Byte>)
    requires 0 <= v < 64 && Good(r)
    ensures Good([Letter(v)] + r)
  {
    ValueOfLetter(v);
    assert ([Letter(v)] + r)[1..] == r;
  }

  lemma FourGood(a: int, b: int, c: int, d: int, r: seq<Byte>)
    requires 0 <= a < 64 && 0 <= b < 64 && 0 <= c < 64 && 0 <= d < 64 && Good(r)
    ensures Good([Letter(a), Letter(b), Letter(c), Letter(d)] + r)
  {
    Prepend(d, r);
    Prepend(c, [Letter(d)] + r);
    Prepend(b, [Letter(c)] + ([Letter(d)] + r));
    Prepend(a, [Letter(b)] + ([Letter(c)] + ([Letter(d)] + r)));
    assert [Letter(a)] + ([Letter(b)] + ([Letter(c)] + ([Letter(d)] + r))) == [Letter(a), Letter(b), Letter(c),
      Letter(d)] + r;
  }

  lemma {:induction false} LettersGood(s: seq<Byte>)
    ensures Good(Letters(s))
  {
    if |s| >= 3 {
      LettersGood(s[3..]);
      FourGood(s[0] / 4, s[0] % 4 * 16 + s[1] / 16, s[1] % 16 * 4 + s[2] / 64, s[2] % 64, Letters(s[3..]));
    } else if |s| == 2 {
      Prepend(s[1] % 16 * 4, []);
      Prepend(s[0] % 4 * 16 + s[1] / 16, [Letter(s[1] % 16 * 4)] + []);
      Prepend(s[0] / 4, [Letter(s[0] % 4 * 16 + s[1] / 16)] + ([Letter(s[1] % 16 * 4)] + []));
      assert Letters(s) == [Letter(s[0] / 4)] + ([Letter(s[0] % 4 * 16 + s[1] / 16)] + ([Letter(s[1] % 16 * 4)] + []));
    } else if |s| == 1 {
      Prepend(s[0] % 4 * 16, []);
      Prepend(s[0] / 4, [Letter(s[0] % 4 * 16)] + []);
      assert Letters(s) == [Letter(s[0] / 4)] + ([Letter(s[0] % 4 * 16)] + []);
    }
  }

  lemma {:induction false} LettersLength(s: seq<Byte>)
    ensures |Letters(s)| + |Padding(|s|)| == (|s| + 2) / 3 * 4
    ensures |Letters(s)| % 4 != 1
  {
    if |s| >= 3 {
      LettersLength(s[3..]);
      Plus3(|s| - 3);
    }
  }

  lemma Plus3(n: nat)
    ensures (n + 3) % 3 == n % 3 && (n + 3 + 2) / 3 == (n + 2) / 3 + 1
  {}

  lemma Three(x: Byte, y: Byte, z: Byte)
    ensures var a, b, c, d := x / 4, x % 4 * 16 + y / 16, y % 16 * 4 + z / 64, z % 64;
            Join(a * 4, b / 16) == x && Join(b * 16, c / 4) == y && Join(c * 64, d) == z
  {
    First(x, y / 16);
    Second(x % 4, y, z / 64);
    Third(y % 16, z);
  }

  lemma First(x: Byte, h: int)
    requires 0 <= h < 16
    ensures Join(x / 4 * 4, (x % 4 * 16 + h) / 16) == x
  {
    assert (x % 4 * 16 + h) / 16 == x % 4;
  }

  lemma Quarter(x: int, h: int)
    requires 0 <= h < 4
    ensures (x * 4 + h) / 4 == x
  {}

  lemma Second(g: int, y: Byte, h: int)
    requires 0 <= g < 4 && 0 <= h < 4
    ensures Join((g * 16 + y / 16) * 16, (y % 16 * 4 + h) / 4) == y
  {
    Quarter(y % 16, h);
    assert (g * 16 + y / 16) * 16 + y % 16 == g * 256 + y;
  }

  lemma Third(g: int, z: Byte)
    requires 0 <= g < 16
    ensures Join((g * 4 + z / 64) * 64, z % 64) == z
  {
    assert (g * 4 + z / 64) * 64 + z % 64 == g * 256 + z;
  }

  lemma BytesFour(a: int, b: int, c: int, d: int, r: seq<Byte>)
    requires 0 <= a < 64 && 0 <= b < 64 && 0 <= c < 64 && 0 <= d < 64
    ensures Bytes([Letter(a), Letter(b), Letter(c), Letter(d)] + r) == [Join(a * 4, b / 16), Join(b * 16, c / 4),
      Join(c * 64, d)] + Bytes(r)
  {
    ValueOfLetter(a);
    ValueOfLetter(b);
    ValueOfLetter(c);
    ValueOfLetter(d);
    assert ([Letter(a), Letter(b), Letter(c), Letter(d)] + r)[4..] == r;
  }

  lemma {:induction false} BytesOfLetters(s: seq<Byte>)
    ensures Bytes(Letters(s)) == s
  {
    if |s| >= 3 {
      BytesOfLetters(s[3..]);
      Three(s[0], s[1], s[2]);
      BytesFour(s[0] / 4, s[0] % 4 * 16 + s[1] / 16, s[1] % 16 * 4 + s[2] / 64, s[2] % 64, Letters(s[3..]));
      assert s == [s[0], s[1], s[2]] + s[3..];
    } else if |s| == 2 {
      BytesTwo(s[0], s[1]);
      assert s == [s[0], s[1]];
    } else if |s| == 1 {
      BytesOne(s[0]);
      assert s == [s[0]];
    }
  }

  lemma BytesTwo(x: Byte, y: Byte)
    ensures Bytes([Letter(x / 4), Letter(x % 4 * 16 + y / 16), Letter(y % 16 * 4)]) == [x, y]
  {
    Three(x, y, 0);
    ValueOfLetter(x / 4);
    ValueOfLetter(x % 4 * 16 + y / 16);
    ValueOfLetter(y % 16 * 4);
  }

  lemma BytesOne(x: Byte)
    ensures Bytes([Letter(x / 4), Letter(x % 4 * 16)]) == [x]
  {
    Three(x, 0, 0);
    ValueOfLetter(x / 4);
    ValueOfLetter(x % 4 * 16);
  }

  // Decoding undoes encoding, for every string of bytes, and the code is as long as its callers reckon.
  lemma RoundTrip(s: seq<Byte>)
    ensures Decode(Encode(s)) == Ok(s) && |Encode(s)| == (|s| + 2) / 3 * 4
  {
    LettersGood(s);
    LettersLength(s);
    TextBefore(Letters(s), Padding(|s|));
    BytesOfLetters(s);
  }

  lemma Regroup(a: seq<Byte>, b: seq<Byte>, c: seq<Byte>)
    ensures a + (b + c) == (a + b) + c
  {}

  // ngx_encode_base64
  method EncodeBase64(src: seq<Byte>) returns (dst: seq<Byte>)
    ensures dst == Encode(src)
  {
    dst := [];
    var i := 0;
    assert src[0..] == src;
    while |src| - i > 2
      invariant 0 <= i <= |src| && dst + Letters(src[i..]) == Letters(src) && Padding(|src| - i) == Padding(|src|)
    {
      var four := FourLetters(src, i);
      Regroup(dst, four, Letters(src[i + 3..]));
      Plus3(|src| - i - 3);
      dst, i := dst + four, i + 3;
    }
    var last := LastLetters(src[i..]);
    Regroup(dst, Letters(src[i..]), Padding(|src| - i));
    dst := dst + last;
  }

  // Three bytes, and what is left in the end
  method FourLetters(src: seq<Byte>, i: nat) returns (four: seq<Byte>)
    requires i + 3 <= |src|
    ensures Letters(src[i..]) == four + Letters(src[i + 3..])
  {
    assert src[i..][3..] == src[i + 3..];
    four := [Letter(src[i] / 4), Letter(src[i] % 4 * 16 + src[i + 1] / 16),
      Letter(src[i + 1] % 16 * 4 + src[i + 2] / 64), Letter(src[i + 2] % 64)];
  }

  method LastLetters(s: seq<Byte>) returns (last: seq<Byte>)
    requires |s| < 3
    ensures last == Letters(s) + Padding(|s|)
  {
    last := [];
    if |s| > 0 {
      last := [Letter(s[0] / 4)];
      if |s| == 1 {
        last := last + [Letter(s[0] % 4 * 16), PAD];
      } else {
        last := last + [Letter(s[0] % 4 * 16 + s[1] / 16), Letter(s[1] % 16 * 4)];
      }
      last := last + [PAD];
    }
  }

  // The first loop of ngx_decode_base64_internal: the length of the text, or no good
  method Measure(src: seq<Byte>) returns (good: bool, len: nat)
    ensures good == AllGood(Text(src)) && (good ==> len <= |src| && Text(src) == src[..len])
  {
    len := 0;
    assert src[0..] == src;
    while len < |src|
      invariant len <= |src| && Text(src) == src[..len] + Text(src[len..]) &&
        AllGood(Text(src)) == AllGood(Text(src[len..]))
    {
      assert src[len..][0] == src[len] && src[len..][1..] == src[len + 1..];
      if src[len] == PAD {
        break;
      }
      assert Text(src[len..]) == [src[len]] + Text(src[len + 1..]);
      if Value(src[len]) == BAD {
        return false, len;
      }
      assert Text(src[len..])[1..] == Text(src[len + 1..]);
      assert src[..len] + ([src[len]] + Text(src[len + 1..])) == src[..len + 1] + Text(src[len + 1..]);
      len := len + 1;
    }
    assert Text(src[len..]) == [] && src[..len] + [] == src[..len];
    good := true;
  }

  // ngx_decode_base64
  method DecodeBase64(src: seq<Byte>) returns (ok: bool, dst: seq<Byte>)
    ensures if ok then Decode(src) == Ok(dst) else Decode(src) == Error
  {
    dst := [];
    var good, len := Measure(src);
    if !good || len % 4 == 1 {
      return false, [];
    }
    ghost var text := src[..len];
    var i := 0;
    assert text[0..] == text;
    while len - i > 3
      invariant 0 <= i <= len && dst + Bytes(text[i..]) == Bytes(text)
    {
      var three := [Join(Value(src[i]) * 4, Value(src[i + 1]) / 16),
        Join(Value(src[i + 1]) * 16, Value(src[i + 2]) / 4), Join(Value(src[i + 2]) * 64, Value(src[i + 3]))];
      assert text[i..][4..] == text[i + 4..];
      assert Bytes(text[i..]) == three + Bytes(text[i + 4..]);
      assert dst + (three + Bytes(text[i + 4..])) == (dst + three) + Bytes(text[i + 4..]);
      dst, i := dst + three, i + 4;
    }
    if len - i > 1 {
      dst := dst + [Join(Value(src[i]) * 4, Value(src[i + 1]) / 16)];
    }
    if len - i > 2 {
      dst := dst + [Join(Value(src[i + 1]) * 16, Value(src[i + 2]) / 4)];
    }
    ok := true;
  }
}
