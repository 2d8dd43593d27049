/** The CRC-32 of nginx/src/core/ngx_crc32.h and ngx_crc32.c: by a table of 16 entries, by a table of 256, and, as the
    reference, bit by bit.  A word is its eight hexadecimal digits, a digit its four bits, the highest first. */
module Crc32 {

  datatype Nib = Nib(b3: bool, b2: bool, b1: bool, b0: bool)

  datatype Word = Word(n7: Nib, n6: Nib, n5: Nib, n4: Nib, n3: Nib, n2: Nib, n1: Nib, n0: Nib)

  datatype Byte = Byte(hi: Nib, lo: Nib)

  const N0 := Nib(false, false, false, false)
  const N1 := Nib(false, false, false, true)
  const N2 := Nib(false, false, true, false)
  const N3 := Nib(false, false, true, true)
  const N4 := Nib(false, true, false, false)
  const N5 := Nib(false, true, false, true)
  const N6 := Nib(false, true, true, false)
  const N7 := Nib(false, true, true, true)
  const N8 := Nib(true, false, false, false)
  const N9 := Nib(true, false, false, true)
  const NA := Nib(true, false, true, false)
  const NB := Nib(true, false, true, true)
  const NC := Nib(true, true, false, false)
  const ND := Nib(true, true, false, true)
  const NE := Nib(true, true, true, false)
  const NF := Nib(true, true, true, true)

  lemma Digits(i: Nib)
    ensures i == N0 || i == N1 || i == N2 || i == N3 || i == N4 || i == N5 || i == N6 || i == N7
      || i == N8 || i == N9 || i == NA || i == NB || i == NC || i == ND || i == NE || i == NF
  {}

  function Mix(a: Nib, b: Nib): Nib {
    Nib(a.b3 != b.b3, a.b2 != b.b2, a.b1 != b.b1, a.b0 != b.b0)
  }

  // Exclusive or
  function Xor(a: Word, b: Word): Word {
    Word(Mix(a.n7, b.n7), Mix(a.n6, b.n6), Mix(a.n5, b.n5), Mix(a.n4, b.n4),
         Mix(a.n3, b.n3), Mix(a.n2, b.n2), Mix(a.n1, b.n1), Mix(a.n0, b.n0))
  }

  lemma MixLaws(a: Nib, b: Nib, c: Nib)
    ensures Mix(a, b) == Mix(b, a) && Mix(Mix(a, b), c) == Mix(a, Mix(b, c)) && Mix(a, N0) == a && Mix(a, a) == N0
  {}

  lemma XorComm(a: Word, b: Word)
    ensures Xor(a, b) == Xor(b, a)
  {}

  lemma XorAssoc(a: Word, b: Word, c: Word)
    ensures Xor(Xor(a, b), c) == Xor(a, Xor(b, c))
  {
    MixLaws(a.n7, b.n7, c.n7);
    MixLaws(a.n6, b.n6, c.n6);
    MixLaws(a.n5, b.n5, c.n5);
    MixLaws(a.n4, b.n4, c.n4);
    MixLaws(a.n3, b.n3, c.n3);
    MixLaws(a.n2, b.n2, c.n2);
    MixLaws(a.n1, b.n1, c.n1);
    MixLaws(a.n0, b.n0, c.n0);
  }

  const ZERO := Word(N0, N0, N0, N0, N0, N0, N0, N0)

  lemma XorZero(a: Word)
    ensures Xor(a, ZERO) == a && Xor(a, a) == ZERO
  {}

  // w >> 1, w >> 4 and w >> 8
  function Push(bit: bool, n: Nib): Nib {
    Nib(bit, n.b3, n.b2, n.b1)
  }

  function Shr1(w: Word): Word {
    Word(Push(false, w.n7), Push(w.n7.b0, w.n6), Push(w.n6.b0, w.n5), Push(w.n5.b0, w.n4),
         Push(w.n4.b0, w.n3), Push(w.n3.b0, w.n2), Push(w.n2.b0, w.n1), Push(w.n1.b0, w.n0))
  }

  function Shr4(w: Word): Word {
    Word(N0, w.n7, w.n6, w.n5, w.n4, w.n3, w.n2, w.n1)
  }

  function Shr8(w: Word): Word {
    Shr4(Shr4(w))
  }

  const POLYNOMIAL := Word(NE, ND, NB, N8, N8, N3, N2, N0)

  // One bit of the reflected CRC with the polynomial of section 3.4 of RFC 2083
  function Bit(c: Word): Word {
    if c.n0.b0 then Xor(POLYNOMIAL, Shr1(c)) else Shr1(c)
  }

  function Four(c: Word): Word {
    Bit(Bit(Bit(Bit(c))))
  }

  function Eight(c: Word): Word {
    Four(Four(c))
  }

  function Digit(n: Nib): Word {
    Word(N0, N0, N0, N0, N0, N0, N0, n)
  }

  lemma ShrXor(a: Word, b: Word)
    ensures Shr1(Xor(a, b)) == Xor(Shr1(a), Shr1(b))
  {
    PushMix(false, a.n7, false, b.n7);
    PushMix(a.n7.b0, a.n6, b.n7.b0, b.n6);
    PushMix(a.n6.b0, a.n5, b.n6.b0, b.n5);
    PushMix(a.n5.b0, a.n4, b.n5.b0, b.n4);
    PushMix(a.n4.b0, a.n3, b.n4.b0, b.n3);
    PushMix(a.n3.b0, a.n2, b.n3.b0, b.n2);
    PushMix(a.n2.b0, a.n1, b.n2.b0, b.n1);
    PushMix(a.n1.b0, a.n0, b.n1.b0, b.n0);
  }

  lemma PushMix(x: bool, a: Nib, y: bool, b: Nib)
    ensures Push(x != y, Mix(a, b)) == Mix(Push(x, a), Push(y, b))
  {}

  // Exclusive or with p on either side, on both or on none
  lemma Fold(x: bool, a: Word, y: bool, b: Word, p: Word)
    ensures Xor(if x then Xor(p, a) else a, if y then Xor(p, b) else b) == if x != y then Xor(p, Xor(a, b))
      else Xor(a, b)
  {
    XorAssoc(p, a, b);
    XorComm(p, b);
    XorAssoc(a, b, p);
    XorComm(Xor(a, b), p);
    XorAssoc(Xor(p, a), b, p);
    XorAssoc(p, Xor(a, b), p);
    XorAssoc(p, p, Xor(a, b));
    XorZero(p);
    XorComm(ZERO, Xor(a, b));
    XorZero(Xor(a, b));
  }

  lemma BitLinear(a: Word, b: Word)
    ensures Bit(Xor(a, b)) == Xor(Bit(a), Bit(b))
  {
    ShrXor(a, b);
    Fold(a.n0.b0, Shr1(a), b.n0.b0, Shr1(b), POLYNOMIAL);
  }

  lemma FourLinear(a: Word, b: Word)
    ensures Four(Xor(a, b)) == Xor(Four(a), Four(b))
  {
    BitLinear(a, b);
    BitLinear(Bit(a), Bit(b));
    BitLinear(Bit(Bit(a)), Bit(Bit(b)));
    BitLinear(Bit(Bit(Bit(a))), Bit(Bit(Bit(b))));
  }

  // Four steps of a word whose low digit is 0 only shift it.
  lemma FourShifts(c: Word)
    requires c.n0 == N0
    ensures Four(c) == Shr4(c)
  {
    assert Bit(c) == Shr1(c);
    assert Bit(Shr1(c)) == Shr1(Shr1(c));
    assert Bit(Shr1(Shr1(c))) == Shr1(Shr1(Shr1(c)));
  }

  // Four steps of a word: those of its low digit, and a shift for the others
  lemma FourAtOnce(c: Word)
    ensures Four(c) == Xor(Four(Digit(c.n0)), Shr4(c))
  {
    var high := c.(n0 := N0);
    assert Xor(Digit(c.n0), high) == c;
    FourLinear(Digit(c.n0), high);
    FourShifts(high);
  }

  // ngx_crc32_table16
  function Table16(i: Nib): Word {
    if i == N0 then Word(N0, N0, N0, N0, N0, N0, N0, N0)
    else if i == N1 then Word(N1, ND, NB, N7, N1, N0, N6, N4)
    else if i == N2 then Word(N3, NB, N6, NE, N2, N0, NC, N8)
    else if i == N3 then Word(N2, N6, ND, N9, N3, N0, NA, NC)
    else if i == N4 then Word(N7, N6, ND, NC, N4, N1, N9, N0)
    else if i == N5 then Word(N6, NB, N6, NB, N5, N1, NF, N4)
    else if i == N6 then Word(N4, ND, NB, N2, N6, N1, N5, N8)
    else if i == N7 then Word(N5, N0, N0, N5, N7, N1, N3, NC)
    else if i == N8 then Word(NE, ND, NB, N8, N8, N3, N2, N0)
    else if i == N9 then Word(NF, N0, N0, NF, N9, N3, N4, N4)
    else if i == NA then Word(ND, N6, ND, N6, NA, N3, NE, N8)
    else if i == NB then Word(NC, NB, N6, N1, NB, N3, N8, NC)
    else if i == NC then Word(N9, NB, N6, N4, NC, N2, NB, N0)
    else if i == ND then Word(N8, N6, ND, N3, ND, N2, ND, N4)
    else if i == NE then Word(NA, N0, N0, NA, NE, N2, N7, N8)
    else Word(NB, ND, NB, ND, NF, N2, N1, NC)
  }

  lemma Table16Ok(i: Nib)
    ensures Table16(i) == Four(Digit(i))
  {
    Digits(i);
  }

  // ngx_crc32_table256, in rows of 16
  function Row0(i: Nib): Word {
    if i == N0 then Word(N0, N0, N0, N0, N0, N0, N0, N0)
    else if i == N1 then Word(N7, N7, N0, N7, N3, N0, N9, N6)
    else if i == N2 then Word(NE, NE, N0, NE, N6, N1, N2, NC)
    else if i == N3 then Word(N9, N9, N0, N9, N5, N1, NB, NA)
    else if i == N4 then Word(N0, N7, N6, ND, NC, N4, N1, N9)
    else if i == N5 then Word(N7, N0, N6, NA, NF, N4, N8, NF)
    else if i == N6 then Word(NE, N9, N6, N3, NA, N5, N3, N5)
    else if i == N7 then Word(N9, NE, N6, N4, N9, N5, NA, N3)
    else if i == N8 then Word(N0, NE, ND, NB, N8, N8, N3, N2)
    else if i == N9 then Word(N7, N9, ND, NC, NB, N8, NA, N4)
    else if i == NA then Word(NE, N0, ND, N5, NE, N9, N1, NE)
    else if i == NB then Word(N9, N7, ND, N2, ND, N9, N8, N8)
    else if i == NC then Word(N0, N9, NB, N6, N4, NC, N2, NB)
    else if i == ND then Word(N7, NE, NB, N1, N7, NC, NB, ND)
    else if i == NE then Word(NE, N7, NB, N8, N2, ND, N0, N7)
    else Word(N9, N0, NB, NF, N1, ND, N9, N1)
  }

  function Row1(i: Nib): Word {
    if i == N0 then Word(N1, ND, NB, N7, N1, N0, N6, N4)
    else if i == N1 then Word(N6, NA, NB, N0, N2, N0, NF, N2)
    else if i == N2 then Word(NF, N3, NB, N9, N7, N1, N4, N8)
    else if i == N3 then Word(N8, N4, NB, NE, N4, N1, ND, NE)
    else if i == N4 then Word(N1, NA, ND, NA, ND, N4, N7, ND)
    else if i == N5 then Word(N6, ND, ND, ND, NE, N4, NE, NB)
    else if i == N6 then Word(NF, N4, ND, N4, NB, N5, N5, N1)
    else if i == N7 then Word(N8, N3, ND, N3, N8, N5, NC, N7)
    else if i == N8 then Word(N1, N3, N6, NC, N9, N8, N5, N6)
    else if i == N9 then Word(N6, N4, N6, NB, NA, N8, NC, N0)
    else if i == NA then Word(NF, ND, N6, N2, NF, N9, N7, NA)
    else if i == NB then Word(N8, NA, N6, N5, NC, N9, NE, NC)
    else if i == NC then Word(N1, N4, N0, N1, N5, NC, N4, NF)
    else if i == ND then Word(N6, N3, N0, N6, N6, NC, ND, N9)
    else if i == NE then Word(NF, NA, N0, NF, N3, ND, N6, N3)
    else Word(N8, ND, N0, N8, N0, ND, NF, N5)
  }

  function Row2(i: Nib): Word {
    if i == N0 then Word(N3, NB, N6, NE, N2, N0, NC, N8)
    else if i == N1 then Word(N4, NC, N6, N9, N1, N0, N5, NE)
    else if i == N2 then Word(ND, N5, N6, N0, N4, N1, NE, N4)
    else if i == N3 then Word(NA, N2, N6, N7, N7, N1, N7, N2)
    else if i == N4 then Word(N3, NC, N0, N3, NE, N4, ND, N1)
    else if i == N5 then Word(N4, NB, N0, N4, ND, N4, N4, N7)
    else if i == N6 then Word(ND, N2, N0, ND, N8, N5, NF, ND)
    else if i == N7 then Word(NA, N5, N0, NA, NB, N5, N6, NB)
    else if i == N8 then Word(N3, N5, NB, N5, NA, N8, NF, NA)
    else if i == N9 then Word(N4, N2, NB, N2, N9, N8, N6, NC)
    else if i == NA then Word(ND, NB, NB, NB, NC, N9, ND, N6)
    else if i == NB then Word(NA, NC, NB, NC, NF, N9, N4, N0)
    else if i == NC then Word(N3, N2, ND, N8, N6, NC, NE, N3)
    else if i == ND then Word(N4, N5, ND, NF, N5, NC, N7, N5)
    else if i == NE then Word(ND, NC, ND, N6, N0, ND, NC, NF)
    else Word(NA, NB, ND, N1, N3, ND, N5, N9)
  }

  function Row3(i: Nib): Word {
    if i == N0 then Word(N2, N6, ND, N9, N3, N0, NA, NC)
    else if i == N1 then Word(N5, N1, ND, NE, N0, N0, N3, NA)
    else if i == N2 then Word(NC, N8, ND, N7, N5, N1, N8, N0)
    else if i == N3 then Word(NB, NF, ND, N0, N6, N1, N1, N6)
    else if i == N4 then Word(N2, N1, NB, N4, NF, N4, NB, N5)
    else if i == N5 then Word(N5, N6, NB, N3, NC, N4, N2, N3)
    else if i == N6 then Word(NC, NF, NB, NA, N9, N5, N9, N9)
    else if i == N7 then Word(NB, N8, NB, ND, NA, N5, N0, NF)
    else if i == N8 then Word(N2, N8, N0, N2, NB, N8, N9, NE)
    else if i == N9 then Word(N5, NF, N0, N5, N8, N8, N0, N8)
    else if i == NA then Word(NC, N6, N0, NC, ND, N9, NB, N2)
    else if i == NB then Word(NB, N1, N0, NB, NE, N9, N2, N4)
    else if i == NC then Word(N2, NF, N6, NF, N7, NC, N8, N7)
    else if i == ND then Word(N5, N8, N6, N8, N4, NC, N1, N1)
    else if i == NE then Word(NC, N1, N6, N1, N1, ND, NA, NB)
    else Word(NB, N6, N6, N6, N2, ND, N3, ND)
  }

  function Row4(i: Nib): Word {
    if i == N0 then Word(N7, N6, ND, NC, N4, N1, N9, N0)
    else if i == N1 then Word(N0, N1, ND, NB, N7, N1, N0, N6)
    else if i == N2 then Word(N9, N8, ND, N2, N2, N0, NB, NC)
    else if i == N3 then Word(NE, NF, ND, N5, N1, N0, N2, NA)
    else if i == N4 then Word(N7, N1, NB, N1, N8, N5, N8, N9)
    else if i == N5 then Word(N0, N6, NB, N6, NB, N5, N1, NF)
    else if i == N6 then Word(N9, NF, NB, NF, NE, N4, NA, N5)
    else if i == N7 then Word(NE, N8, NB, N8, ND, N4, N3, N3)
    else if i == N8 then Word(N7, N8, N0, N7, NC, N9, NA, N2)
    else if i == N9 then Word(N0, NF, N0, N0, NF, N9, N3, N4)
    else if i == NA then Word(N9, N6, N0, N9, NA, N8, N8, NE)
    else if i == NB then Word(NE, N1, N0, NE, N9, N8, N1, N8)
    else if i == NC then Word(N7, NF, N6, NA, N0, ND, NB, NB)
    else if i == ND then Word(N0, N8, N6, ND, N3, ND, N2, ND)
    else if i == NE then Word(N9, N1, N6, N4, N6, NC, N9, N7)
    else Word(NE, N6, N6, N3, N5, NC, N0, N1)
  }

  function Row5(i: Nib): Word {
    if i == N0 then Word(N6, NB, N6, NB, N5, N1, NF, N4)
    else if i == N1 then Word(N1, NC, N6, NC, N6, N1, N6, N2)
    else if i == N2 then Word(N8, N5, N6, N5, N3, N0, ND, N8)
    else if i == N3 then Word(NF, N2, N6, N2, N0, N0, N4, NE)
    else if i == N4 then Word(N6, NC, N0, N6, N9, N5, NE, ND)
    else if i == N5 then Word(N1, NB, N0, N1, NA, N5, N7, NB)
    else if i == N6 then Word(N8, N2, N0, N8, NF, N4, NC, N1)
    else if i == N7 then Word(NF, N5, N0, NF, NC, N4, N5, N7)
    else if i == N8 then Word(N6, N5, NB, N0, ND, N9, NC, N6)
    else if i == N9 then Word(N1, N2, NB, N7, NE, N9, N5, N0)
    else if i == NA then Word(N8, NB, NB, NE, NB, N8, NE, NA)
    else if i == NB then Word(NF, NC, NB, N9, N8, N8, N7, NC)
    else if i == NC then Word(N6, N2, ND, ND, N1, ND, ND, NF)
    else if i == ND then Word(N1, N5, ND, NA, N2, ND, N4, N9)
    else if i == NE then Word(N8, NC, ND, N3, N7, NC, NF, N3)
    else Word(NF, NB, ND, N4, N4, NC, N6, N5)
  }

  function Row6(i: Nib): Word {
    if i == N0 then Word(N4, ND, NB, N2, N6, N1, N5, N8)
    else if i == N1 then Word(N3, NA, NB, N5, N5, N1, NC, NE)
    else if i == N2 then Word(NA, N3, NB, NC, N0, N0, N7, N4)
    else if i == N3 then Word(ND, N4, NB, NB, N3, N0, NE, N2)
    else if i == N4 then Word(N4, NA, ND, NF, NA, N5, N4, N1)
    else if i == N5 then Word(N3, ND, ND, N8, N9, N5, ND, N7)
    else if i == N6 then Word(NA, N4, ND, N1, NC, N4, N6, ND)
    else if i == N7 then Word(ND, N3, ND, N6, NF, N4, NF, NB)
    else if i == N8 then Word(N4, N3, N6, N9, NE, N9, N6, NA)
    else if i == N9 then Word(N3, N4, N6, NE, ND, N9, NF, NC)
    else if i == NA then Word(NA, ND, N6, N7, N8, N8, N4, N6)
    else if i == NB then Word(ND, NA, N6, N0, NB, N8, ND, N0)
    else if i == NC then Word(N4, N4, N0, N4, N2, ND, N7, N3)
    else if i == ND then Word(N3, N3, N0, N3, N1, ND, NE, N5)
    else if i == NE then Word(NA, NA, N0, NA, N4, NC, N5, NF)
    else Word(ND, ND, N0, ND, N7, NC, NC, N9)
  }

  function Row7(i: Nib): Word {
    if i == N0 then Word(N5, N0, N0, N5, N7, N1, N3, NC)
    else if i == N1 then Word(N2, N7, N0, N2, N4, N1, NA, NA)
    else if i == N2 then Word(NB, NE, N0, NB, N1, N0, N1, N0)
    else if i == N3 then Word(NC, N9, N0, NC, N2, N0, N8, N6)
    else if i == N4 then Word(N5, N7, N6, N8, NB, N5, N2, N5)
    else if i == N5 then Word(N2, N0, N6, NF, N8, N5, NB, N3)
    else if i == N6 then Word(NB, N9, N6, N6, ND, N4, N0, N9)
    else if i == N7 then Word(NC, NE, N6, N1, NE, N4, N9, NF)
    else if i == N8 then Word(N5, NE, ND, NE, NF, N9, N0, NE)
    else if i == N9 then Word(N2, N9, ND, N9, NC, N9, N9, N8)
    else if i == NA then Word(NB, N0, ND, N0, N9, N8, N2, N2)
    else if i == NB then Word(NC, N7, ND, N7, NA, N8, NB, N4)
    else if i == NC then Word(N5, N9, NB, N3, N3, ND, N1, N7)
    else if i == ND then Word(N2, NE, NB, N4, N0, ND, N8, N1)
    else if i == NE then Word(NB, N7, NB, ND, N5, NC, N3, NB)
    else Word(NC, N0, NB, NA, N6, NC, NA, ND)
  }

  function Row8(i: Nib): Word {
    if i == N0 then Word(NE, ND, NB, N8, N8, N3, N2, N0)
    else if i == N1 then Word(N9, NA, NB, NF, NB, N3, NB, N6)
    else if i == N2 then Word(N0, N3, NB, N6, NE, N2, N0, NC)
    else if i == N3 then Word(N7, N4, NB, N1, ND, N2, N9, NA)
    else if i == N4 then Word(NE, NA, ND, N5, N4, N7, N3, N9)
    else if i == N5 then Word(N9, ND, ND, N2, N7, N7, NA, NF)
    else if i == N6 then Word(N0, N4, ND, NB, N2, N6, N1, N5)
    else if i == N7 then Word(N7, N3, ND, NC, N1, N6, N8, N3)
    else if i == N8 then Word(NE, N3, N6, N3, N0, NB, N1, N2)
    else if i == N9 then Word(N9, N4, N6, N4, N3, NB, N8, N4)
    else if i == NA then Word(N0, ND, N6, ND, N6, NA, N3, NE)
    else if i == NB then Word(N7, NA, N6, NA, N5, NA, NA, N8)
    else if i == NC then Word(NE, N4, N0, NE, NC, NF, N0, NB)
    else if i == ND then Word(N9, N3, N0, N9, NF, NF, N9, ND)
    else if i == NE then Word(N0, NA, N0, N0, NA, NE, N2, N7)
    else Word(N7, ND, N0, N7, N9, NE, NB, N1)
  }

  function Row9(i: Nib): Word {
    if i == N0 then Word(NF, N0, N0, NF, N9, N3, N4, N4)
    else if i == N1 then Word(N8, N7, N0, N8, NA, N3, ND, N2)
    else if i == N2 then Word(N1, NE, N0, N1, NF, N2, N6, N8)
    else if i == N3 then Word(N6, N9, N0, N6, NC, N2, NF, NE)
    else if i == N4 then Word(NF, N7, N6, N2, N5, N7, N5, ND)
    else if i == N5 then Word(N8, N0, N6, N5, N6, N7, NC, NB)
    else if i == N6 then Word(N1, N9, N6, NC, N3, N6, N7, N1)
    else if i == N7 then Word(N6, NE, N6, NB, N0, N6, NE, N7)
    else if i == N8 then Word(NF, NE, ND, N4, N1, NB, N7, N6)
    else if i == N9 then Word(N8, N9, ND, N3, N2, NB, NE, N0)
    else if i == NA then Word(N1, N0, ND, NA, N7, NA, N5, NA)
    else if i == NB then Word(N6, N7, ND, ND, N4, NA, NC, NC)
    else if i == NC then Word(NF, N9, NB, N9, ND, NF, N6, NF)
    else if i == ND then Word(N8, NE, NB, NE, NE, NF, NF, N9)
    else if i == NE then Word(N1, N7, NB, N7, NB, NE, N4, N3)
    else Word(N6, N0, NB, N0, N8, NE, ND, N5)
  }

  function RowA(i: Nib): Word {
    if i == N0 then Word(ND, N6, ND, N6, NA, N3, NE, N8)
    else if i == N1 then Word(NA, N1, ND, N1, N9, N3, N7, NE)
    else if i == N2 then Word(N3, N8, ND, N8, NC, N2, NC, N4)
    else if i == N3 then Word(N4, NF, ND, NF, NF, N2, N5, N2)
    else if i == N4 then Word(ND, N1, NB, NB, N6, N7, NF, N1)
    else if i == N5 then Word(NA, N6, NB, NC, N5, N7, N6, N7)
    else if i == N6 then Word(N3, NF, NB, N5, N0, N6, ND, ND)
    else if i == N7 then Word(N4, N8, NB, N2, N3, N6, N4, NB)
    else if i == N8 then Word(ND, N8, N0, ND, N2, NB, ND, NA)
    else if i == N9 then Word(NA, NF, N0, NA, N1, NB, N4, NC)
    else if i == NA then Word(N3, N6, N0, N3, N4, NA, NF, N6)
    else if i == NB then Word(N4, N1, N0, N4, N7, NA, N6, N0)
    else if i == NC then Word(ND, NF, N6, N0, NE, NF, NC, N3)
    else if i == ND then Word(NA, N8, N6, N7, ND, NF, N5, N5)
    else if i == NE then Word(N3, N1, N6, NE, N8, NE, NE, NF)
    else Word(N4, N6, N6, N9, NB, NE, N7, N9)
  }

  function RowB(i: Nib): Word {
    if i == N0 then Word(NC, NB, N6, N1, NB, N3, N8, NC)
    else if i == N1 then Word(NB, NC, N6, N6, N8, N3, N1, NA)
    else if i == N2 then Word(N2, N5, N6, NF, ND, N2, NA, N0)
    else if i == N3 then Word(N5, N2, N6, N8, NE, N2, N3, N6)
    else if i == N4 then Word(NC, NC, N0, NC, N7, N7, N9, N5)
    else if i == N5 then Word(NB, NB, N0, NB, N4, N7, N0, N3)
    else if i == N6 then Word(N2, N2, N0, N2, N1, N6, NB, N9)
    else if i == N7 then Word(N5, N5, N0, N5, N2, N6, N2, NF)
    else if i == N8 then Word(NC, N5, NB, NA, N3, NB, NB, NE)
    else if i == N9 then Word(NB, N2, NB, ND, N0, NB, N2, N8)
    else if i == NA then Word(N2, NB, NB, N4, N5, NA, N9, N2)
    else if i == NB then Word(N5, NC, NB, N3, N6, NA, N0, N4)
    else if i == NC then Word(NC, N2, ND, N7, NF, NF, NA, N7)
    else if i == ND then Word(NB, N5, ND, N0, NC, NF, N3, N1)
    else if i == NE then Word(N2, NC, ND, N9, N9, NE, N8, NB)
    else Word(N5, NB, ND, NE, NA, NE, N1, ND)
  }

  function RowC(i: Nib): Word {
    if i == N0 then Word(N9, NB, N6, N4, NC, N2, NB, N0)
    else if i == N1 then Word(NE, NC, N6, N3, NF, N2, N2, N6)
    else if i == N2 then Word(N7, N5, N6, NA, NA, N3, N9, NC)
    else if i == N3 then Word(N0, N2, N6, ND, N9, N3, N0, NA)
    else if i == N4 then Word(N9, NC, N0, N9, N0, N6, NA, N9)
    else if i == N5 then Word(NE, NB, N0, NE, N3, N6, N3, NF)
    else if i == N6 then Word(N7, N2, N0, N7, N6, N7, N8, N5)
    else if i == N7 then Word(N0, N5, N0, N0, N5, N7, N1, N3)
    else if i == N8 then Word(N9, N5, NB, NF, N4, NA, N8, N2)
    else if i == N9 then Word(NE, N2, NB, N8, N7, NA, N1, N4)
    else if i == NA then Word(N7, NB, NB, N1, N2, NB, NA, NE)
    else if i == NB then Word(N0, NC, NB, N6, N1, NB, N3, N8)
    else if i == NC then Word(N9, N2, ND, N2, N8, NE, N9, NB)
    else if i == ND then Word(NE, N5, ND, N5, NB, NE, N0, ND)
    else if i == NE then Word(N7, NC, ND, NC, NE, NF, NB, N7)
    else Word(N0, NB, ND, NB, ND, NF, N2, N1)
  }

  function RowD(i: Nib): Word {
    if i == N0 then Word(N8, N6, ND, N3, ND, N2, ND, N4)
    else if i == N1 then Word(NF, N1, ND, N4, NE, N2, N4, N2)
    else if i == N2 then Word(N6, N8, ND, ND, NB, N3, NF, N8)
    else if i == N3 then Word(N1, NF, ND, NA, N8, N3, N6, NE)
    else if i == N4 then Word(N8, N1, NB, NE, N1, N6, NC, ND)
    else if i == N5 then Word(NF, N6, NB, N9, N2, N6, N5, NB)
    else if i == N6 then Word(N6, NF, NB, N0, N7, N7, NE, N1)
    else if i == N7 then Word(N1, N8, NB, N7, N4, N7, N7, N7)
    else if i == N8 then Word(N8, N8, N0, N8, N5, NA, NE, N6)
    else if i == N9 then Word(NF, NF, N0, NF, N6, NA, N7, N0)
    else if i == NA then Word(N6, N6, N0, N6, N3, NB, NC, NA)
    else if i == NB then Word(N1, N1, N0, N1, N0, NB, N5, NC)
    else if i == NC then Word(N8, NF, N6, N5, N9, NE, NF, NF)
    else if i == ND then Word(NF, N8, N6, N2, NA, NE, N6, N9)
    else if i == NE then Word(N6, N1, N6, NB, NF, NF, ND, N3)
    else Word(N1, N6, N6, NC, NC, NF, N4, N5)
  }

  function RowE(i: Nib): Word {
    if i == N0 then Word(NA, N0, N0, NA, NE, N2, N7, N8)
    else if i == N1 then Word(ND, N7, N0, ND, ND, N2, NE, NE)
    else if i == N2 then Word(N4, NE, N0, N4, N8, N3, N5, N4)
    else if i == N3 then Word(N3, N9, N0, N3, NB, N3, NC, N2)
    else if i == N4 then Word(NA, N7, N6, N7, N2, N6, N6, N1)
    else if i == N5 then Word(ND, N0, N6, N0, N1, N6, NF, N7)
    else if i == N6 then Word(N4, N9, N6, N9, N4, N7, N4, ND)
    else if i == N7 then Word(N3, NE, N6, NE, N7, N7, ND, NB)
    else if i == N8 then Word(NA, NE, ND, N1, N6, NA, N4, NA)
    else if i == N9 then Word(ND, N9, ND, N6, N5, NA, ND, NC)
    else if i == NA then Word(N4, N0, ND, NF, N0, NB, N6, N6)
    else if i == NB then Word(N3, N7, ND, N8, N3, NB, NF, N0)
    else if i == NC then Word(NA, N9, NB, NC, NA, NE, N5, N3)
    else if i == ND then Word(ND, NE, NB, NB, N9, NE, NC, N5)
    else if i == NE then Word(N4, N7, NB, N2, NC, NF, N7, NF)
    else Word(N3, N0, NB, N5, NF, NF, NE, N9)
  }

  function RowF(i: Nib): Word {
    if i == N0 then Word(NB, ND, NB, ND, NF, N2, N1, NC)
    else if i == N1 then Word(NC, NA, NB, NA, NC, N2, N8, NA)
    else if i == N2 then Word(N5, N3, NB, N3, N9, N3, N3, N0)
    else if i == N3 then Word(N2, N4, NB, N4, NA, N3, NA, N6)
    else if i == N4 then Word(NB, NA, ND, N0, N3, N6, N0, N5)
    else if i == N5 then Word(NC, ND, ND, N7, N0, N6, N9, N3)
    else if i == N6 then Word(N5, N4, ND, NE, N5, N7, N2, N9)
    else if i == N7 then Word(N2, N3, ND, N9, N6, N7, NB, NF)
    else if i == N8 then Word(NB, N3, N6, N6, N7, NA, N2, NE)
    else if i == N9 then Word(NC, N4, N6, N1, N4, NA, NB, N8)
    else if i == NA then Word(N5, ND, N6, N8, N1, NB, N0, N2)
    else if i == NB then Word(N2, NA, N6, NF, N2, NB, N9, N4)
    else if i == NC then Word(NB, N4, N0, NB, NB, NE, N3, N7)
    else if i == ND then Word(NC, N3, N0, NC, N8, NE, NA, N1)
    else if i == NE then Word(N5, NA, N0, N5, ND, NF, N1, NB)
    else Word(N2, ND, N0, N2, NE, NF, N8, ND)
  }

  function Table256(i: Byte): Word {
    if i.hi == N0 then Row0(i.lo)
    else if i.hi == N1 then Row1(i.lo)
    else if i.hi == N2 then Row2(i.lo)
    else if i.hi == N3 then Row3(i.lo)
    else if i.hi == N4 then Row4(i.lo)
    else if i.hi == N5 then Row5(i.lo)
    else if i.hi == N6 then Row6(i.lo)
    else if i.hi == N7 then Row7(i.lo)
    else if i.hi == N8 then Row8(i.lo)
    else if i.hi == N9 then Row9(i.lo)
    else if i.hi == NA then RowA(i.lo)
    else if i.hi == NB then RowB(i.lo)
    else if i.hi == NC then RowC(i.lo)
    else if i.hi == ND then RowD(i.lo)
    else if i.hi == NE then RowE(i.lo)
    else RowF(i.lo)
  }

  lemma Row0Ok(i: Nib)
    ensures Row0(i) == Four(Table16(i))
  {
    Digits(i);
  }

  lemma Row1Ok(i: Nib)
    ensures Row1(i) == Xor(Table16(N1), Row0(i))
  {
    Digits(i);
  }

  lemma Row2Ok(i: Nib)
    ensures Row2(i) == Xor(Table16(N2), Row0(i))
  {
    Digits(i);
  }

  lemma Row3Ok(i: Nib)
    ensures Row3(i) == Xor(Table16(N3), Row0(i))
  {
    Digits(i);
  }

  lemma Row4Ok(i: Nib)
    ensures Row4(i) == Xor(Table16(N4), Row0(i))
  {
    Digits(i);
  }

  lemma Row5Ok(i: Nib)
    ensures Row5(i) == Xor(Table16(N5), Row0(i))
  {
    Digits(i);
  }

  lemma Row6Ok(i: Nib)
    ensures Row6(i) == Xor(Table16(N6), Row0(i))
  {
    Digits(i);
  }

  lemma Row7Ok(i: Nib)
    ensures Row7(i) == Xor(Table16(N7), Row0(i))
  {
    Digits(i);
  }

  lemma Row8Ok(i: Nib)
    ensures Row8(i) == Xor(Table16(N8), Row0(i))
  {
    Digits(i);
  }

  lemma Row9Ok(i: Nib)
    ensures Row9(i) == Xor(Table16(N9), Row0(i))
  {
    Digits(i);
  }

  lemma RowAOk(i: Nib)
    ensures RowA(i) == Xor(Table16(NA), Row0(i))
  {
    Digits(i);
  }

  lemma RowBOk(i: Nib)
    ensures RowB(i) == Xor(Table16(NB), Row0(i))
  {
    Digits(i);
  }

  lemma RowCOk(i: Nib)
    ensures RowC(i) == Xor(Table16(NC), Row0(i))
  {
    Digits(i);
  }

  lemma RowDOk(i: Nib)
    ensures RowD(i) == Xor(Table16(ND), Row0(i))
  {
    Digits(i);
  }

  lemma RowEOk(i: Nib)
    ensures RowE(i) == Xor(Table16(NE), Row0(i))
  {
    Digits(i);
  }

  lemma RowFOk(i: Nib)
    ensures RowF(i) == Xor(Table16(NF), Row0(i))
  {
    Digits(i);
  }

  // The second table is made of the first.
  lemma RowsOk(i: Byte)
    ensures Table256(i) == Xor(Table16(i.hi), Row0(i.lo))
  {
    if i.hi == N0 {
      XorComm(ZERO, Row0(i.lo));
      XorZero(Row0(i.lo));
    } else if i.hi == N1 {
      Row1Ok(i.lo);
    } else if i.hi == N2 {
      Row2Ok(i.lo);
    } else if i.hi == N3 {
      Row3Ok(i.lo);
    } else if i.hi == N4 {
      Row4Ok(i.lo);
    } else if i.hi == N5 {
      Row5Ok(i.lo);
    } else if i.hi == N6 {
      Row6Ok(i.lo);
    } else if i.hi == N7 {
      Row7Ok(i.lo);
    } else if i.hi == N8 {
      Row8Ok(i.lo);
    } else if i.hi == N9 {
      Row9Ok(i.lo);
    } else if i.hi == NA {
      RowAOk(i.lo);
    } else if i.hi == NB {
      RowBOk(i.lo);
    } else if i.hi == NC {
      RowCOk(i.lo);
    } else if i.hi == ND {
      RowDOk(i.lo);
    } else if i.hi == NE {
      RowEOk(i.lo);
    } else {
      RowFOk(i.lo);
    }
  }

  function Wide(b: Byte): Word {
    Word(N0, N0, N0, N0, N0, N0, b.hi, b.lo)
  }

  // A byte taken in bit by bit, by the table of 16 entries, and by the table of 256
  function ByBits(crc: Word, b: Byte): Word {
    Eight(Xor(crc, Wide(b)))
  }

  function ByNibble(crc: Word, n: Nib): Word {
    Xor(Table16(Mix(crc.n0, n)), Shr4(crc))
  }

  function ByByte(crc: Word, b: Byte): Word {
    Xor(Table256(Byte(Mix(crc.n1, b.hi), Mix(crc.n0, b.lo))), Shr8(crc))
  }

  lemma NibbleOk(crc: Word, n: Nib)
    ensures ByNibble(crc, n) == Four(Xor(crc, Digit(n)))
  {
    Table16Ok(Mix(crc.n0, n));
    FourAtOnce(Xor(crc, Digit(n)));
    ShrDigit(crc, n);
  }

  lemma ShrDigit(crc: Word, n: Nib)
    ensures Shr4(Xor(crc, Digit(n))) == Shr4(crc) && Xor(crc, Digit(n)).n0 == Mix(crc.n0, n)
  {}

  // Eight steps of a word by the second table
  lemma EightAtOnce(c: Word)
    ensures Eight(c) == Xor(Table256(Byte(c.n1, c.n0)), Shr8(c))
  {
    FourAtOnce(c);
    FourLinear(Four(Digit(c.n0)), Shr4(c));
    FourAtOnce(Shr4(c));
    Table16Ok(c.n0);
    Table16Ok(c.n1);
    Row0Ok(c.n0);
    RowsOk(Byte(c.n1, c.n0));
    XorAssoc(Row0(c.n0), Table16(c.n1), Shr8(c));
    XorComm(Row0(c.n0), Table16(c.n1));
  }

  lemma ByByteOk(crc: Word, b: Byte)
    ensures ByByte(crc, b) == ByBits(crc, b)
  {
    EightAtOnce(Xor(crc, Wide(b)));
    ShrWide(crc, b);
  }

  lemma ShrWide(crc: Word, b: Byte)
    ensures Shr8(Xor(crc, Wide(b))) == Shr8(crc)
  {}

  lemma ByNibblesOk(crc: Word, b: Byte)
    ensures ByNibble(ByNibble(crc, b.lo), b.hi) == ByBits(crc, b)
  {
    var high := Word(N0, N0, N0, N0, N0, N0, b.hi, N0);
    NibbleOk(crc, b.lo);
    NibbleOk(ByNibble(crc, b.lo), b.hi);
    WideSplit(crc, b);
    FourLinear(Xor(crc, Digit(b.lo)), high);
    FourShifts(high);
  }

  lemma WideSplit(crc: Word, b: Byte)
    ensures var high := Word(N0, N0, N0, N0, N0, N0, b.hi, N0);
            Xor(Xor(crc, Digit(b.lo)), high) == Xor(crc, Wide(b)) && Shr4(high) == Digit(b.hi)
  {
    var high := Word(N0, N0, N0, N0, N0, N0, b.hi, N0);
    XorAssoc(crc, Digit(b.lo), high);
    MixLaws(b.hi, N0, N0);
    MixLaws(b.lo, N0, N0);
    assert Xor(Digit(b.lo), high) == Wide(b);
  }

  // The CRC of a text, bit by bit
  function Crc(crc: Word, p: seq<Byte>): Word
    decreases p
  {
    if p == [] then crc else Crc(ByBits(crc, p[0]), p[1..])
  }

  const ONES := Word(NF, NF, NF, NF, NF, NF, NF, NF)

  lemma {:induction false} CrcJoin(crc: Word, p: seq<Byte>, q: seq<Byte>)
    ensures Crc(crc, p + q) == Crc(Crc(crc, p), q)
    decreases p
  {
    if p == [] {
      assert p + q == q;
    } else {
      assert (p + q)[0] == p[0] && (p + q)[1..] == p[1..] + q;
      CrcJoin(ByBits(crc, p[0]), p[1..], q);
    }
  }

  // ngx_crc32_short
  method Short(p: seq<Byte>) returns (r: Word)
    ensures r == Xor(Crc(ONES, p), ONES)
  {
    var crc := ONES;
    for i := 0 to |p|
      invariant Crc(crc, p[i..]) == Crc(ONES, p)
    {
      ByNibblesOk(crc, p[i]);
      assert p[i..][1..] == p[i + 1..];
      crc := ByNibble(crc, p[i].lo);
      crc := ByNibble(crc, p[i].hi);
    }
    r := Xor(crc, ONES);
  }

  // ngx_crc32_update
  method Update(crc0: Word, p: seq<Byte>) returns (crc: Word)
    ensures crc == Crc(crc0, p)
  {
    crc := crc0;
    for i := 0 to |p|
      invariant Crc(crc, p[i..]) == Crc(crc0, p)
    {
      ByByteOk(crc, p[i]);
      assert p[i..][1..] == p[i + 1..];
      crc := ByByte(crc, p[i]);
    }
  }

  // ngx_crc32_long
  method Long(p: seq<Byte>) returns (r: Word)
    ensures r == Xor(Crc(ONES, p), ONES)
  {
    var crc := Update(ONES, p);
    r := Xor(crc, ONES);
  }

  function Concat(ps: seq<seq<Byte>>): seq<Byte> {
    if ps == [] then [] else ps[0] + Concat(ps[1..])
  }

  // ngx_crc32_init, an update with each piece of a text, and ngx_crc32_final give the CRC of the whole.
  method Pieces(ps: seq<seq<Byte>>) returns (r: Word)
    ensures r == Xor(Crc(ONES, Concat(ps)), ONES)
  {
    var crc := ONES;
    for i := 0 to |ps|
      invariant Crc(crc, Concat(ps[i..])) == Crc(ONES, Concat(ps))
    {
      assert ps[i..][0] == ps[i] && ps[i..][1..] == ps[i + 1..];
      CrcJoin(crc, ps[i], Concat(ps[i + 1..]));
      crc := Update(crc, ps[i]);
    }
    r := Xor(crc, ONES);
  }
}
