/** CRC-16/CCITT, once by table from a zero register
    (cmd/jspr-helper/jspr_helper.py, lines 68 to 72) and once bit by bit from
    0xFFFF (scripts/hf10m_ref.py, lines 50 to 56). */
module Crc16 {
  import opened Bytes
  import opened Bits
  import opened CrcRegister
  import opened CrcTable

  type Step = (Word, byte) -> Word

  /** A checksum loop: one step of the register per byte. */
  function Fold(step: Step, r: Word, body: seq<byte>): Word
    decreases |body|
  {
    if body == [] then r else Fold(step, step(r, body[0]), body[1..])
  }

  /** The byte enters at the top, then eight shifts. */
  function BitStep(r: Word, b: byte): Word {
    Shifts(Xor(r, High(ToOctet(b))), 8)
  }

  /** The low byte moves up; the table accounts for the high byte and the input. */
  function TableStep(r: Word, b: byte): Word {
    Xor(High(r.lo), Table(FromOctet(Xor8(r.hi, ToOctet(b)))))
  }

  function BitCrc(r: Word, body: seq<byte>): Word {
    Fold(BitStep, r, body)
  }

  // ----- the two loops -----

  /** The helper's checksum: table-driven, zero register. */
  method HelperCrc(data: seq<byte>) returns (crc: Word)
    ensures crc == BitCrc(ZERO, data)
  {
    hide TableStep, BitStep;
    crc := ZERO;
    for k := 0 to |data|
      invariant Fold(TableStep, ZERO, data) == Fold(TableStep, crc, data[k..])
    {
      FoldUnfold(TableStep, crc, data, k);
      crc := TableStep(crc, data[k]);
    }
    TableEqualsBitwise(ZERO, data);
  }

  /** The codec's checksum: eight shifts per byte, register of ones. */
  method FrameCrc(body: seq<byte>) returns (crc: Word)
    ensures crc == BitCrc(ONES, body)
  {
    hide Xor, Shift;
    crc := ONES;
    for k := 0 to |body|
      invariant BitCrc(ONES, body) == Fold(BitStep, crc, body[k..])
    {
      FoldUnfold(BitStep, crc, body, k);
      crc := Xor(crc, High(ToOctet(body[k])));
      ghost var start := crc;
      for bit := 0 to 8
        invariant Shifts(crc, 8 - bit) == Shifts(start, 8)
      {
        crc := Shift(crc);
      }
    }
  }

  // ----- folds of any step -----

  lemma FoldUnfold(step: Step, r: Word, body: seq<byte>, k: nat)
    requires k < |body|
    ensures Fold(step, r, body[k..]) == Fold(step, step(r, body[k]), body[k + 1..])
  {
    assert body[k..][1..] == body[k + 1..];
  }

  lemma {:induction false} FoldConcat(step: Step, r: Word, a: seq<byte>, b: seq<byte>)
    ensures Fold(step, r, a + b) == Fold(step, Fold(step, r, a), b)
    decreases |a|
  {
    if a == [] {
      assert a + b == b;
    } else {
      assert (a + b)[1..] == a[1..] + b;
      FoldConcat(step, step(r, a[0]), a[1..], b);
    }
  }

  lemma FoldShort(step: Step, r: Word, a: byte, b: byte)
    ensures Fold(step, r, [a]) == step(r, a)
    ensures Fold(step, r, [a, b]) == step(step(r, a), b)
  {
    assert [a][1..] == [] && [b][1..] == [] && [a, b][1..] == [b];
    assert Fold(step, step(r, a), [b]) == Fold(step, step(step(r, a), b), []);
    assert Fold(step, step(r, a), []) == step(r, a);
  }

  lemma {:induction false} FoldAgrees(f: Step, g: Step, r: Word, body: seq<byte>)
    requires forall x, b :: f(x, b) == g(x, b)
    ensures Fold(f, r, body) == Fold(g, r, body)
    decreases |body|
  {
    if body != [] { FoldAgrees(f, g, f(r, body[0]), body[1..]); }
  }

  lemma {:induction false} FoldKeepsDifference(step: Step, r: Word, s: Word, tail: seq<byte>)
    requires forall x, y, b :: step(x, b) == step(y, b) ==> x == y
    requires r != s
    ensures Fold(step, r, tail) != Fold(step, s, tail)
    decreases |tail|
  {
    if tail != [] { FoldKeepsDifference(step, step(r, tail[0]), step(s, tail[0]), tail[1..]); }
  }

  // ----- the table is the bitwise step -----

  lemma Regroup(r: Word, o: Octet)
    ensures Xor(r, High(o)) == Xor(High(Xor8(r.hi, o)), Low(r.lo))
  {
  }

  lemma XorCommutes(x: Word, y: Word)
    ensures Xor(x, y) == Xor(y, x)
  {
  }

  lemma StepsAgree(r: Word, b: byte)
    ensures TableStep(r, b) == BitStep(r, b)
  {
    hide Shift, Xor, Xor8, High, Low, ToOctet, FromOctet, Table;
    var o := Xor8(r.hi, ToOctet(b));
    ByteAndBack(o);
    TableEntry(FromOctet(o));
    LowByteRises(r.lo);
    Regroup(r, ToOctet(b));
    ShiftsLinear(High(o), Low(r.lo), 8);
    XorCommutes(High(r.lo), Table(FromOctet(o)));
  }

  /** From any register, on every byte string, the table gives the bitwise CRC. */
  lemma TableEqualsBitwise(r: Word, body: seq<byte>)
    ensures Fold(TableStep, r, body) == BitCrc(r, body)
  {
    hide TableStep, BitStep;
    forall x, b ensures TableStep(x, b) == BitStep(x, b) {
      StepsAgree(x, b);
    }
    FoldAgrees(TableStep, BitStep, r, body);
  }

  // ----- checking a frame that carries its own CRC -----

  function BigEndian(crc: Word): seq<byte> {
    [FromOctet(crc.hi), FromOctet(crc.lo)]
  }

  /** Two bytes fed in a row are one word fed and sixteen shifts. */
  lemma PairAsWord(r: Word, a: byte, b: byte)
    ensures BitStep(BitStep(r, a), b) == Shifts(Xor(r, Word(ToOctet(a), ToOctet(b))), 16)
  {
    hide Shift, Xor, ToOctet, High, Low;
    var x, oa, ob := Xor(r, High(ToOctet(a))), ToOctet(a), ToOctet(b);
    LowByteRises(ob);
    ShiftsLinear(x, Low(ob), 8);
    ShiftsAdd(Xor(x, Low(ob)), 8, 8);
    Together(r, oa, ob);
  }

  lemma Together(r: Word, a: Octet, b: Octet)
    ensures Xor(Xor(r, High(a)), Low(b)) == Xor(r, Word(a, b))
  {
  }

  lemma {:induction false} ZeroStays(n: nat)
    ensures Shifts(ZERO, n) == ZERO
  {
    if n > 0 { ZeroStays(n - 1); }
  }

  lemma XorSelf(r: Word)
    ensures Xor(r, r) == ZERO
  {
  }

  /** A body followed by its own big-endian CRC drives the register to zero. */
  lemma ResidueIsZero(r: Word, body: seq<byte>)
    ensures BitCrc(r, body + BigEndian(BitCrc(r, body))) == ZERO
  {
    hide BitStep, Xor, FromOctet, ToOctet;
    var crc := BitCrc(r, body);
    var a, b := FromOctet(crc.hi), FromOctet(crc.lo);
    FoldConcat(BitStep, r, body, BigEndian(crc));
    FoldShort(BitStep, crc, a, b);
    PairAsWord(crc, a, b);
    ByteAndBack(crc.hi);
    ByteAndBack(crc.lo);
    XorSelf(crc);
    ZeroStays(16);
  }

  // ----- damage within two adjacent bytes is always seen -----

  lemma XorCancels(x: Word, y: Word, z: Word)
    ensures Xor(x, z) == Xor(y, z) ==> x == y
    ensures Xor(z, x) == Xor(z, y) ==> x == y
  {
  }

  lemma StepInjective(x: Word, y: Word, b: byte)
    requires BitStep(x, b) == BitStep(y, b)
    ensures x == y
  {
    hide Shift, Xor, High, ToOctet;
    var z := High(ToOctet(b));
    ShiftsInjective(Xor(x, z), Xor(y, z), 8);
    XorCancels(x, y, z);
  }

  /** Two bytes fed to one register leave it different unless they are the same. */
  lemma PairInjective(r: Word, a: byte, b: byte, c: byte, d: byte)
    requires BitStep(BitStep(r, a), b) == BitStep(BitStep(r, c), d)
    ensures a == c && b == d
  {
    hide BitStep, Xor, ToOctet, FromOctet;
    var x, y := Word(ToOctet(a), ToOctet(b)), Word(ToOctet(c), ToOctet(d));
    PairAsWord(r, a, b);
    PairAsWord(r, c, d);
    ShiftsInjective(Xor(r, x), Xor(r, y), 16);
    XorCancels(x, y, r);
    OctetAndBack(a);
    OctetAndBack(b);
    OctetAndBack(c);
    OctetAndBack(d);
  }

  lemma WindowDiffers(r: Word, was: seq<byte>, now: seq<byte>)
    requires |was| == |now| <= 2 && was != now
    ensures BitCrc(r, was) != BitCrc(r, now)
  {
    hide BitStep;
    if |was| == 1 {
      var a, c := was[0], now[0];
      assert was == [a] && now == [c];
      FoldShort(BitStep, r, a, 0);
      FoldShort(BitStep, r, c, 0);
      if BitStep(r, a) == BitStep(r, c) { PairInjective(r, a, 0, c, 0); }
    } else {
      var a, b, c, d := was[0], was[1], now[0], now[1];
      assert was == [a, b] && now == [c, d];
      FoldShort(BitStep, r, a, b);
      FoldShort(BitStep, r, c, d);
      if BitStep(BitStep(r, a), b) == BitStep(BitStep(r, c), d) { PairInjective(r, a, b, c, d); }
    }
  }

  /** Two bodies of one length that differ only within two adjacent bytes never
      share a CRC, whatever precedes and follows the damage. */
  lemma AdjacentDamageDetected(r: Word, head: seq<byte>, was: seq<byte>, now: seq<byte>, tail: seq<byte>)
    requires |was| == |now| <= 2 && was != now
    ensures BitCrc(r, head + was + tail) != BitCrc(r, head + now + tail)
  {
    hide BitStep;
    FoldConcat(BitStep, r, head + was, tail);
    FoldConcat(BitStep, r, head + now, tail);
    FoldConcat(BitStep, r, head, was);
    FoldConcat(BitStep, r, head, now);
    WindowDiffers(BitCrc(r, head), was, now);
    forall x, y, b | BitStep(x, b) == BitStep(y, b) ensures x == y {
      StepInjective(x, y, b);
    }
    FoldKeepsDifference(BitStep, BitCrc(r, head + was), BitCrc(r, head + now), tail);
  }
}
