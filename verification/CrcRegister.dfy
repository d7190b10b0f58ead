/** The shift register of CRC-16/CCITT: sixteen bits, as two octets, and the map
    that one shift is, with the polynomial 0x1021 fed back. */
module CrcRegister {
  import opened Bits

  datatype Word = Word(hi: Octet, lo: Octet)

  const ZERO4 := Nibble(false, false, false, false)
  const ZERO8 := Octet(ZERO4, ZERO4)
  const ZERO := Word(ZERO8, ZERO8)
  const ONES4 := Nibble(true, true, true, true)
  const ONES := Word(Octet(ONES4, ONES4), Octet(ONES4, ONES4))

  function Xor4(x: Nibble, y: Nibble): Nibble {
    Nibble(x.b3 != y.b3, x.b2 != y.b2, x.b1 != y.b1, x.b0 != y.b0)
  }

  function Xor8(x: Octet, y: Octet): Octet {
    Octet(Xor4(x.h, y.h), Xor4(x.l, y.l))
  }

  function Xor(x: Word, y: Word): Word {
    Word(Xor8(x.hi, y.hi), Xor8(x.lo, y.lo))
  }

  function High(o: Octet): Word { Word(o, ZERO8) }
  function Low(o: Octet): Word { Word(ZERO8, o) }

  /** One shift to the left; the bit shifted out is fed back at 12, 5 and 0. */
  function Shift(r: Word): Word {
    var f := r.hi.h.b3;
    Word(Octet(Nibble(r.hi.h.b2, r.hi.h.b1, r.hi.h.b0, r.hi.l.b3 != f), Nibble(r.hi.l.b2, r.hi.l.b1, r.hi.l.b0, r.lo.h.b3)),
         Octet(Nibble(r.lo.h.b2, r.lo.h.b1, r.lo.h.b0 != f, r.lo.l.b3), Nibble(r.lo.l.b2, r.lo.l.b1, r.lo.l.b0, f)))
  }

  function Shifts(r: Word, n: nat): Word
    decreases n
  {
    if n == 0 then r else Shifts(Shift(r), n - 1)
  }

  lemma ShiftLinear(x: Word, y: Word)
    ensures Shift(Xor(x, y)) == Xor(Shift(x), Shift(y))
  {
  }

  lemma {:induction false} ShiftsLinear(x: Word, y: Word, n: nat)
    ensures Shifts(Xor(x, y), n) == Xor(Shifts(x, n), Shifts(y, n))
    decreases n
  {
    if n > 0 {
      ShiftLinear(x, y);
      ShiftsLinear(Shift(x), Shift(y), n - 1);
    }
  }

  lemma {:induction false} ShiftsInjective(x: Word, y: Word, n: nat)
    requires Shifts(x, n) == Shifts(y, n)
    ensures x == y
    decreases n
  {
    if n > 0 {
      ShiftsInjective(Shift(x), Shift(y), n - 1);
    }
  }

  lemma {:induction false} ShiftsAdd(x: Word, m: nat, n: nat)
    ensures Shifts(Shifts(x, m), n) == Shifts(x, m + n)
    decreases m
  {
    if m > 0 { ShiftsAdd(Shift(x), m - 1, n); }
  }

  /** Eight shifts bring a low byte up untouched. */
  lemma LowByteRises(o: Octet)
    ensures Shifts(Low(o), 8) == High(o)
  {
    var x1 := Shift(Low(o));
    var x2 := Shift(x1);
    var x3 := Shift(x2);
    var x4 := Shift(x3);
    var x5 := Shift(x4);
    var x6 := Shift(x5);
    var x7 := Shift(x6);
    assert Shift(x7) == High(o);
    assert Shifts(x7, 1) == High(o) && Shifts(x6, 2) == High(o) && Shifts(x5, 3) == High(o) && Shifts(x4, 4) == High(o);
    assert Shifts(x3, 5) == High(o) && Shifts(x2, 6) == High(o) && Shifts(x1, 7) == High(o);
  }
}
