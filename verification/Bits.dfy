/** The eight bits of a byte. */
module Bits {
  import opened Bytes

  /** Most significant bit first. */
  datatype Nibble = Nibble(b3: bool, b2: bool, b1: bool, b0: bool)

  datatype Octet = Octet(h: Nibble, l: Nibble)

  function ToNibble(n: int): Nibble
    requires 0 <= n < 16
  {
    var r3 := if n >= 8 then n - 8 else n;
    var r2 := if r3 >= 4 then r3 - 4 else r3;
    Nibble(n >= 8, r3 >= 4, r2 >= 2, r2 == 1 || r2 == 3)
  }

  function FromNibble(b: Nibble): (n: int)
    ensures 0 <= n < 16
  {
    (if b.b3 then 8 else 0) + (if b.b2 then 4 else 0) + (if b.b1 then 2 else 0) + (if b.b0 then 1 else 0)
  }

  function ToOctet(b: byte): Octet {
    Octet(ToNibble(b / 16), ToNibble(b % 16))
  }

  function FromOctet(o: Octet): byte {
    16 * FromNibble(o.h) + FromNibble(o.l)
  }

  lemma NibbleAndBack(n: int)
    requires 0 <= n < 16
    ensures FromNibble(ToNibble(n)) == n
  {
  }

  lemma ValueAndBack(b: Nibble)
    ensures ToNibble(FromNibble(b)) == b
  {
  }

  lemma OctetAndBack(b: byte)
    ensures FromOctet(ToOctet(b)) == b
  {
    NibbleAndBack(b / 16);
    NibbleAndBack(b % 16);
  }

  lemma ByteAndBack(o: Octet)
    ensures ToOctet(FromOctet(o)) == o
  {
    ValueAndBack(o.h);
    ValueAndBack(o.l);
    Halves(FromNibble(o.h), FromNibble(o.l));
  }

  lemma Halves(h: int, l: int)
    requires 0 <= l < 16
    ensures (16 * h + l) / 16 == h && (16 * h + l) % 16 == l
  {
  }
}
