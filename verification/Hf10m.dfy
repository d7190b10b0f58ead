/** Frames and bursts of the 10 m HF codec (scripts/hf10m_ref.py, lines 67 to 80). */
module Hf10m {
  import opened Options
  import opened Bytes
  import opened Bits
  import CrcRegister
  import Crc16
  import Gf2
  import Ldpc
  import Interleaver
  import Radix40

  // ----- bytes and bits -----

  function OctetBits(o: Octet): seq<bool> {
    [o.h.b3, o.h.b2, o.h.b1, o.h.b0, o.l.b3, o.l.b2, o.l.b1, o.l.b0]
  }

  function BitsOctet(s: seq<bool>): Octet
    requires |s| == 8
  {
    Octet(Nibble(s[0], s[1], s[2], s[3]), Nibble(s[4], s[5], s[6], s[7]))
  }

  function UnpackBits(bytes: seq<byte>): (bits: seq<bool>)
    ensures |bits| == 8 * |bytes|
  {
    if bytes == [] then [] else OctetBits(ToOctet(bytes[0])) + UnpackBits(bytes[1..])
  }

  /** n bytes from 8n bits. */
  function PackBits(bits: seq<bool>, n: nat): (bytes: seq<byte>)
    requires |bits| == 8 * n
    ensures |bytes| == n
  {
    if n == 0 then [] else [FromOctet(BitsOctet(bits[..8]))] + PackBits(bits[8..], n - 1)
  }

  lemma {:induction false} UnpackPacked(bits: seq<bool>, n: nat)
    requires |bits| == 8 * n
    ensures UnpackBits(PackBits(bits, n)) == bits
    decreases n
  {
    hide FromOctet, ToOctet, OctetBits, BitsOctet;
    if n > 0 {
      var o := BitsOctet(bits[..8]);
      ByteAndBack(o);
      EightBits(bits[..8]);
      UnpackPacked(bits[8..], n - 1);
      var rest := PackBits(bits[8..], n - 1);
      assert ([FromOctet(o)] + rest)[1..] == rest;
      assert bits == bits[..8] + bits[8..];
    }
  }

  lemma EightBits(s: seq<bool>)
    requires |s| == 8
    ensures OctetBits(BitsOctet(s)) == s
  {
  }

  lemma {:induction false} PackUnpacked(bytes: seq<byte>)
    ensures PackBits(UnpackBits(bytes), |bytes|) == bytes
    decreases |bytes|
  {
    hide FromOctet, ToOctet;
    if bytes != [] {
      var first, rest := OctetBits(ToOctet(bytes[0])), UnpackBits(bytes[1..]);
      assert (first + rest)[..8] == first && (first + rest)[8..] == rest;
      assert BitsOctet(first) == ToOctet(bytes[0]);
      OctetAndBack(bytes[0]);
      PackUnpacked(bytes[1..]);
    }
  }

  // ----- the inner frame -----

  /** The fragment byte: index in the high nibble, or-ed with the total. */
  function FragByte(idx: int, tot: int): Option<byte> {
    if 0 <= idx < 16 && 0 <= tot < 256 then
      var i, t := ToNibble(idx), ToOctet(tot);
      Some(FromOctet(Octet(Nibble(i.b3 || t.h.b3, i.b2 || t.h.b2, i.b1 || t.h.b1, i.b0 || t.h.b0), t.l)))
    else None
  }

  datatype Fields = Fields(origin: string, dest: seq<byte>, msgId: int, fragIdx: int, fragTot: int, text: seq<byte>)

  function Body(f: Fields): Option<seq<byte>> {
    var call := Radix40.Radix40(f.origin);
    if !call.Ok? || !(0 <= f.msgId < 65536) || FragByte(f.fragIdx, f.fragTot).None? || |f.text| > 255 then None
    else
      var head: seq<byte> := [0x10, 0x00];
      var id: seq<byte> := [f.msgId / 256, f.msgId % 256];
      var frag: seq<byte> := [FragByte(f.fragIdx, f.fragTot).value, |f.text|];
      Some(head + call.bytes + f.dest + id + frag + f.text)
  }

  /** None stands for the conversions that refuse a field. */
  function Inner(f: Fields): Option<seq<byte>> {
    var body := Body(f);
    if body.None? then None
    else Some(body.value + Crc16.BigEndian(Crc16.BitCrc(CrcRegister.ONES, body.value)))
  }

  /** Reading a frame's fields, for destinations of 16 bytes. */
  function ReadInner(frame: seq<byte>): Option<Fields> {
    if |frame| < 30 || Crc16.BitCrc(CrcRegister.ONES, frame) != CrcRegister.ZERO then None
    else if |frame| != 30 + Number(frame[27]) then None
    else
      Some(Fields(Radix40.Unpack(frame[2..8]), frame[8..24], 256 * Number(frame[24]) + Number(frame[25]),
                  frame[26] / 16, frame[26] % 16, frame[28..|frame| - 2]))
  }

  /** The bitwise or of two nibbles. */
  function OrNibble(x: int, y: int): (r: int)
    requires 0 <= x < 16 && 0 <= y < 16
    ensures 0 <= r < 16
  {
    var a, b := ToNibble(x), ToNibble(y);
    FromNibble(Nibble(a.b3 || b.b3, a.b2 || b.b2, a.b1 || b.b1, a.b0 || b.b0))
  }

  lemma OrZeroIsSame(x: int)
    requires 0 <= x < 16
    ensures OrNibble(x, 0) == x
  {
  }

  lemma FragByteSplits(idx: int, tot: int)
    requires 0 <= idx < 16 && 0 <= tot < 256
    ensures FragByte(idx, tot) == Some(16 * OrNibble(idx, tot / 16) + tot % 16)
  {
    hide ToNibble, FromNibble;
    NibbleAndBack(tot % 16);
  }

  /** A frame carries its fields and its own check: reading it back returns them
      all, the origin as its padded upper-case form. A fragment total over 15 runs
      into the index, so the two come back if and only if it is not. */
  lemma InnerReadsBack(f: Fields)
    requires |f.origin| <= Radix40.PLACES && |f.dest| == 16 && Inner(f).Some?
    ensures 0 <= f.fragIdx < 16 && 0 <= f.fragTot < 256 && |Inner(f).value| == 30 + |f.text|
    ensures ReadInner(Inner(f).value) ==
            Some(f.(origin := Radix40.Padded(f.origin),
                    fragIdx := OrNibble(f.fragIdx, f.fragTot / 16), fragTot := f.fragTot % 16))
    ensures ReadInner(Inner(f).value) == Some(f.(origin := Radix40.Padded(f.origin))) <==> f.fragTot < 16
  {
    hide Crc16.BitCrc, Crc16.BigEndian, FragByte, Radix40.Radix40, Radix40.Unpack, Radix40.Padded, OrNibble, Body, Inner;
    FragmentFits(f);
    FragByteSplits(f.fragIdx, f.fragTot);
    FrameLayout(f);
    Radix40.PackedCallComesBack(f.origin);
    Halves(OrNibble(f.fragIdx, f.fragTot / 16), f.fragTot % 16);
    OrZeroIsSame(f.fragIdx);
  }

  lemma FragmentFits(f: Fields)
    requires Inner(f).Some?
    ensures 0 <= f.fragIdx < 16 && 0 <= f.fragTot < 256 && 0 <= f.msgId < 65536 && Radix40.Radix40(f.origin).Ok?
  {
    hide Crc16.BitCrc, Radix40.Radix40, ToNibble, FromNibble;
  }

  /** Where each field lies, and that the whole passes its check. */
  lemma FrameLayout(f: Fields)
    requires |f.origin| <= Radix40.PLACES && |f.dest| == 16 && Inner(f).Some? && FragByte(f.fragIdx, f.fragTot).Some?
    requires 0 <= f.msgId < 65536 && Radix40.Radix40(f.origin).Ok?
    ensures var frame := Inner(f).value;
            && |frame| == 30 + |f.text| && Crc16.BitCrc(CrcRegister.ONES, frame) == CrcRegister.ZERO
            && frame[0] == 0x10 && frame[1] == 0x00
            && frame[2..8] == Radix40.Radix40(f.origin).bytes && frame[8..24] == f.dest && frame[28..|frame| - 2] == f.text
            && 256 * Number(frame[24]) + Number(frame[25]) == f.msgId
            && Number(frame[26]) == FragByte(f.fragIdx, f.fragTot).value && Number(frame[27]) == |f.text|
  {
    hide Crc16.BitCrc, Crc16.BigEndian, FragByte, Radix40.Radix40, Radix40.Unpack, Radix40.Padded;
    var call, body, frame := Radix40.Radix40(f.origin), Body(f).value, Inner(f).value;
    Radix40.PackedCallComesBack(f.origin);
    Crc16.ResidueIsZero(CrcRegister.ONES, body);
    BigEndianLength(Crc16.BitCrc(CrcRegister.ONES, body));
    assert |body| == 28 + |f.text| && |frame| == |body| + 2;
    assert frame[2..8] == call.bytes && frame[8..24] == f.dest && frame[28..|frame| - 2] == f.text;
    assert frame[24] == f.msgId / 256 && frame[25] == f.msgId % 256 && frame[27] == |f.text|;
  }

  /** Damage within any two adjacent bytes of a frame, its check included, is seen. */
  lemma DamagedFrameUnreadable(f: Fields, head: seq<byte>, was: seq<byte>, now: seq<byte>, tail: seq<byte>)
    requires Inner(f).Some? && Inner(f).value == head + was + tail
    requires |was| == |now| == 2 && was != now
    ensures ReadInner(head + now + tail) == None
  {
    hide Crc16.BitCrc, Crc16.BigEndian, Body;
    Crc16.ResidueIsZero(CrcRegister.ONES, Body(f).value);
    Crc16.AdjacentDamageDetected(CrcRegister.ONES, head, was, now, tail);
  }

  lemma BigEndianLength(w: CrcRegister.Word)
    ensures |Crc16.BigEndian(w)| == 2
  {
  }

  // ----- the burst -----

  const PREAMBLE: seq<byte> := [0x55, 0x55, 0x55, 0x55, 0x55, 0x55, 0x55, 0x55]
  const COSTAS: seq<byte> := [0xFD, 0x59, 0xBB, 0x49, 0xC5, 0xE5, 0x18, 0x40]

  function PadLength(bits: nat): (pad: nat)
    ensures pad < 64 && (bits + pad) % 64 == 0
  {
    var len: int := bits;
    -len % 64
  }

  function BlockCount(frame: seq<byte>): (n: nat)
    ensures 64 * n == 8 * |frame| + PadLength(8 * |frame|)
  {
    (8 * |frame| + PadLength(8 * |frame|)) / 64
  }

  function PadBits(frame: seq<byte>): (bits: seq<bool>)
    ensures |bits| == 64 * BlockCount(frame)
  {
    UnpackBits(frame) + Gf2.Zeros(PadLength(8 * |frame|))
  }

  /** Interleave and pack a run of n coded blocks. */
  function OnAir(coded: seq<bool>, n: nat): (payload: seq<byte>)
    requires |coded| == 128 * n
    ensures |payload| == 16 * n
  {
    PackBits(Interleaver.Interleave(coded, 8 * n), 16 * n)
  }

  function OffAir(payload: seq<byte>, n: nat): (coded: seq<bool>)
    requires |payload| == 16 * n
    ensures |coded| == 128 * n
  {
    Interleaver.Undo(UnpackBits(payload), 8 * n)
  }

  lemma OffAirOnAir(coded: seq<bool>, n: nat)
    requires |coded| == 128 * n
    ensures OffAir(OnAir(coded, n), n) == coded
  {
    hide Interleaver.Interleave, Interleaver.Undo, PackBits, UnpackBits;
    UnpackPacked(Interleaver.Interleave(coded, 8 * n), 16 * n);
    Interleaver.UndoInterleave(coded, 8 * n);
  }

  function Payload(enc: Ldpc.Coder, frame: seq<byte>): (payload: seq<byte>)
    requires Ldpc.Systematic(enc)
    ensures |payload| == 16 * BlockCount(frame)
  {
    OnAir(Ldpc.EncodeAll(enc, PadBits(frame), BlockCount(frame)), BlockCount(frame))
  }

  /** None for an empty frame, which has no block to join, and for more blocks
      than a byte can count. */
  function Burst(enc: Ldpc.Coder, frame: seq<byte>): Option<seq<byte>>
    requires Ldpc.Systematic(enc)
  {
    var n := BlockCount(frame);
    if n == 0 || n > 255 then None
    else
      var count: seq<byte> := [n, n, n];
      Some(PREAMBLE + COSTAS + count + Payload(enc, frame) + PREAMBLE + PREAMBLE)
  }

  /** Undo framing, packing, interleaving and block encoding. */
  function Unburst(sent: seq<byte>): Option<seq<bool>> {
    if |sent| < 35 || |sent| != 35 + 16 * Number(sent[16]) then None
    else Some(Ldpc.InfoAll(OffAir(sent[19..|sent| - 16], Number(sent[16])), Number(sent[16])))
  }

  lemma PayloadComesBack(enc: Ldpc.Coder, frame: seq<byte>)
    requires Ldpc.Systematic(enc)
    ensures Ldpc.InfoAll(OffAir(Payload(enc, frame), BlockCount(frame)), BlockCount(frame)) == PadBits(frame)
  {
    hide Ldpc.EncodeAll, Ldpc.InfoAll, OnAir, OffAir, PadBits;
    OffAirOnAir(Ldpc.EncodeAll(enc, PadBits(frame), BlockCount(frame)), BlockCount(frame));
    Ldpc.InfoOfEncoded(enc, PadBits(frame), BlockCount(frame));
  }

  lemma BurstLayout(enc: Ldpc.Coder, frame: seq<byte>)
    requires Ldpc.Systematic(enc)
    ensures Burst(enc, frame).Some? <==> 0 < |frame| <= 2040
    ensures Burst(enc, frame).Some? ==>
              var sent, n := Burst(enc, frame).value, BlockCount(frame);
              |sent| == 35 + 16 * n && sent[16] == n && sent[19..|sent| - 16] == Payload(enc, frame)
  {
    hide Payload;
  }

  /** A burst is refused only for an empty frame or more than 255 blocks; undone,
      it is the frame's bits followed by fewer than 64 zeros. */
  lemma BurstComesBack(enc: Ldpc.Coder, frame: seq<byte>)
    requires Ldpc.Systematic(enc)
    ensures Burst(enc, frame).Some? <==> 0 < |frame| <= 2040
    ensures Burst(enc, frame).Some? ==>
              Unburst(Burst(enc, frame).value) == Some(UnpackBits(frame) + Gf2.Zeros(PadLength(8 * |frame|)))
  {
    hide Burst, UnpackBits, Payload, Ldpc.InfoAll, OffAir;
    BurstLayout(enc, frame);
    PayloadComesBack(enc, frame);
  }

  /** The packed front of the undone bits is the frame itself. */
  lemma FrameRecovered(enc: Ldpc.Coder, frame: seq<byte>)
    requires Ldpc.Systematic(enc) && 0 < |frame| <= 2040
    ensures Burst(enc, frame).Some?
    ensures var got := Unburst(Burst(enc, frame).value);
            got.Some? && |got.value| >= 8 * |frame| && PackBits(got.value[..8 * |frame|], |frame|) == frame
  {
    hide Burst, Unburst, UnpackBits, PackBits;
    BurstComesBack(enc, frame);
    PackUnpacked(frame);
    var bits := UnpackBits(frame);
    assert (bits + Gf2.Zeros(PadLength(8 * |frame|)))[..8 * |frame|] == bits;
  }

  /** Taken off the air, a burst is one codeword of H for each block, and their
      information places hold the frame and its padding. */
  ghost predicate CarriesFrame(H: Gf2.Matrix, sent: seq<byte>, frame: seq<byte>) {
    var n := BlockCount(frame);
    && |sent| == 35 + 16 * n
    && var coded := OffAir(sent[19..|sent| - 16], n);
       && Ldpc.AllCodewords(H, coded, n)
       && Ldpc.InfoAll(coded, n) == UnpackBits(frame) + Gf2.Zeros(PadLength(8 * |frame|))
  }

  lemma LaidOutCarries(H: Gf2.Matrix, coded: seq<bool>, sent: seq<byte>, frame: seq<byte>)
    requires var n := BlockCount(frame);
             && |coded| == 128 * n && |sent| == 35 + 16 * n && sent[19..|sent| - 16] == OnAir(coded, n)
             && Ldpc.AllCodewords(H, coded, n) && Ldpc.InfoAll(coded, n) == PadBits(frame)
    ensures CarriesFrame(H, sent, frame)
  {
    hide OffAir, OnAir, UnpackBits, Ldpc.InfoAll, Ldpc.AllCodewords;
    OffAirOnAir(coded, BlockCount(frame));
  }

  /** What is on the air, for every matrix with independent parity columns and
      every frame that fits. */
  lemma BurstCarriesCodewords(H: Gf2.Matrix, frame: seq<byte>)
    requires Ldpc.Code(H) && 0 < |frame| <= 2040
    ensures Ldpc.Systematic(Ldpc.CoderOf(H)) && Burst(Ldpc.CoderOf(H), frame).Some?
    ensures CarriesFrame(H, Burst(Ldpc.CoderOf(H), frame).value, frame)
  {
    hide Burst, OnAir, PadBits, CarriesFrame, Ldpc.EncodeAll, Ldpc.InfoAll, Ldpc.CoderOf, Ldpc.Code, Ldpc.AllCodewords;
    var enc, bits, n := Ldpc.CoderOf(H), PadBits(frame), BlockCount(frame);
    Ldpc.EncodedAreCodewords(H, bits, n);
    BurstLayout(enc, frame);
    LaidOutCarries(H, Ldpc.EncodeAll(enc, bits, n), Burst(enc, frame).value, frame);
  }

  /** With a 16-byte destination the inner frame never needs more than 36 blocks,
      so its burst is never refused. */
  lemma InnerFitsThirtySixBlocks(enc: Ldpc.Coder, f: Fields)
    requires Ldpc.Systematic(enc) && |f.origin| <= Radix40.PLACES && |f.dest| == 16
    requires Inner(f).Some?
    ensures 0 < BlockCount(Inner(f).value) <= 36 && Burst(enc, Inner(f).value).Some?
  {
    hide Crc16.BitCrc, FragByte, Radix40.Radix40, Burst;
    Radix40.PackedCallComesBack(f.origin);
    BigEndianLength(Crc16.BitCrc(CrcRegister.ONES, Body(f).value));
    assert |Inner(f).value| == 30 + |f.text|;
    BurstComesBack(enc, Inner(f).value);
  }

  // ----- what is on the air, byte by byte -----

  /** The weight of bit j, the first the most significant. */
  function BitWeight(j: int): (w: int)
    requires 0 <= j < 8
    ensures w > 0
  {
    if j == 0 then 128 else if j == 1 then 64 else if j == 2 then 32 else if j == 3 then 16
    else if j == 4 then 8 else if j == 5 then 4 else if j == 6 then 2 else 1
  }

  lemma NibbleBits(n: int)
    requires 0 <= n < 16
    ensures var b := ToNibble(n);
            (b.b3 <==> n / 8 % 2 == 1) && (b.b2 <==> n / 4 % 2 == 1) && (b.b1 <==> n / 2 % 2 == 1) && (b.b0 <==> n % 2 == 1)
  {
  }

  lemma ByteBits(b: byte, j: int)
    requires 0 <= j < 8
    ensures OctetBits(ToOctet(b))[j] <==> Number(b) / BitWeight(j) % 2 == 1
  {
    hide ToNibble;
    var n: int := Number(b);
    if j < 4 {
      NibbleBits(n / 16);
      HighBits(n);
    } else {
      NibbleBits(n % 16);
      LowBits(n);
    }
  }

  lemma HighBits(n: int)
    requires 0 <= n < 256
    ensures n / 128 == n / 16 / 8 && n / 64 == n / 16 / 4 && n / 32 == n / 16 / 2
  {
  }

  lemma LowBits(n: int)
    requires 0 <= n < 256
    ensures n / 8 % 2 == n % 16 / 8 % 2 && n / 4 % 2 == n % 16 / 4 % 2 && n / 2 % 2 == n % 16 / 2 % 2 && n % 2 == n % 16 % 2
  {
    var q, r := n / 16, n % 16;
    assert n / 8 == 2 * q + r / 8;
    assert n / 4 == 2 * (2 * q) + r / 4;
    assert n / 2 == 2 * (4 * q) + r / 2;
    assert n == 2 * (8 * q) + r;
    Even(q, r / 8);
    Even(2 * q, r / 4);
    Even(4 * q, r / 2);
    Even(8 * q, r);
  }

  lemma Even(q: int, r: int)
    ensures (2 * q + r) % 2 == r % 2
  {
  }

  /** Bits go out most significant first. */
  lemma {:induction false} BitOrder(bytes: seq<byte>, i: nat, j: nat)
    requires i < |bytes| && j < 8
    ensures UnpackBits(bytes)[8 * i + j] <==> Number(bytes[i]) / BitWeight(j) % 2 == 1
  {
    hide ToOctet, BitWeight, OctetBits;
    if i == 0 {
      ByteBits(bytes[0], j);
    } else {
      BitOrder(bytes[1..], i - 1, j);
      assert bytes[1..][i - 1] == bytes[i];
    }
  }

  /** Bit 16r + c of the coded blocks goes out at place c times the height plus r. */
  lemma OnAirPlaces(coded: seq<bool>, n: nat, r: nat, c: nat)
    requires |coded| == 128 * n && r < 8 * n && c < 16
    ensures 0 <= 8 * n * c + r < 128 * n && UnpackBits(OnAir(coded, n))[8 * n * c + r] == coded[16 * r + c]
  {
    hide PackBits, UnpackBits, Interleaver.Interleave;
    UnpackPacked(Interleaver.Interleave(coded, 8 * n), 16 * n);
    Interleaver.SentByColumns(coded, 8 * n, r, c);
  }

  /** A burst: eight 0x55, the Costas tones, the block count three times, the payload
      and sixteen 0x55, with one block for every eight bytes or part of them. */
  lemma BurstBytes(enc: Ldpc.Coder, frame: seq<byte>)
    requires Ldpc.Systematic(enc) && 0 < |frame| <= 2040
    ensures Burst(enc, frame).Some?
    ensures var sent, n := Burst(enc, frame).value, (|frame| + 7) / 8;
            && |sent| == 35 + 16 * n && BlockCount(frame) == n
            && (forall i :: 0 <= i < 8 ==> sent[i] == 0x55)
            && sent[8..16] == [0xFD, 0x59, 0xBB, 0x49, 0xC5, 0xE5, 0x18, 0x40]
            && sent[16..19] == [n, n, n] && sent[19..19 + 16 * n] == Payload(enc, frame)
            && (forall i :: 19 + 16 * n <= i < |sent| ==> sent[i] == 0x55)
  {
    hide Payload;
    BurstLayout(enc, frame);
    var n := BlockCount(frame);
    assert 64 * n == 8 * |frame| + PadLength(8 * |frame|);
  }
}
