/** The helper's 256-entry table (cmd/jspr-helper/jspr_helper.py, lines 32 to 65).
    Its entries are proved right by doubling: entry 2i is entry i shifted once,
    and an odd entry differs from the even one before it by the polynomial. */
module CrcTable {
  import opened Bytes
  import opened Bits
  import opened CrcRegister

  /** One printed line of the table: eight entries. */
  datatype Row = Row(t0: bv16, t1: bv16, t2: bv16, t3: bv16, t4: bv16, t5: bv16, t6: bv16, t7: bv16)

  function RowsA(r: int): Row {
    match r
    case 0 => Row(0x0000, 0x1021, 0x2042, 0x3063, 0x4084, 0x50A5, 0x60C6, 0x70E7)
    case 1 => Row(0x8108, 0x9129, 0xA14A, 0xB16B, 0xC18C, 0xD1AD, 0xE1CE, 0xF1EF)
    case 2 => Row(0x1231, 0x0210, 0x3273, 0x2252, 0x52B5, 0x4294, 0x72F7, 0x62D6)
    case 3 => Row(0x9339, 0x8318, 0xB37B, 0xA35A, 0xD3BD, 0xC39C, 0xF3FF, 0xE3DE)
    case 4 => Row(0x2462, 0x3443, 0x0420, 0x1401, 0x64E6, 0x74C7, 0x44A4, 0x5485)
    case 5 => Row(0xA56A, 0xB54B, 0x8528, 0x9509, 0xE5EE, 0xF5CF, 0xC5AC, 0xD58D)
    case 6 => Row(0x3653, 0x2672, 0x1611, 0x0630, 0x76D7, 0x66F6, 0x5695, 0x46B4)
    case _ => Row(0xB75B, 0xA77A, 0x9719, 0x8738, 0xF7DF, 0xE7FE, 0xD79D, 0xC7BC)
  }

  function RowsB(r: int): Row {
    match r
    case 8 => Row(0x48C4, 0x58E5, 0x6886, 0x78A7, 0x0840, 0x1861, 0x2802, 0x3823)
    case 9 => Row(0xC9CC, 0xD9ED, 0xE98E, 0xF9AF, 0x8948, 0x9969, 0xA90A, 0xB92B)
    case 10 => Row(0x5AF5, 0x4AD4, 0x7AB7, 0x6A96, 0x1A71, 0x0A50, 0x3A33, 0x2A12)
    case 11 => Row(0xDBFD, 0xCBDC, 0xFBBF, 0xEB9E, 0x9B79, 0x8B58, 0xBB3B, 0xAB1A)
    case 12 => Row(0x6CA6, 0x7C87, 0x4CE4, 0x5CC5, 0x2C22, 0x3C03, 0x0C60, 0x1C41)
    case 13 => Row(0xEDAE, 0xFD8F, 0xCDEC, 0xDDCD, 0xAD2A, 0xBD0B, 0x8D68, 0x9D49)
    case 14 => Row(0x7E97, 0x6EB6, 0x5ED5, 0x4EF4, 0x3E13, 0x2E32, 0x1E51, 0x0E70)
    case _ => Row(0xFF9F, 0xEFBE, 0xDFDD, 0xCFFC, 0xBF1B, 0xAF3A, 0x9F59, 0x8F78)
  }

  function RowsC(r: int): Row {
    match r
    case 16 => Row(0x9188, 0x81A9, 0xB1CA, 0xA1EB, 0xD10C, 0xC12D, 0xF14E, 0xE16F)
    case 17 => Row(0x1080, 0x00A1, 0x30C2, 0x20E3, 0x5004, 0x4025, 0x7046, 0x6067)
    case 18 => Row(0x83B9, 0x9398, 0xA3FB, 0xB3DA, 0xC33D, 0xD31C, 0xE37F, 0xF35E)
    case 19 => Row(0x02B1, 0x1290, 0x22F3, 0x32D2, 0x4235, 0x5214, 0x6277, 0x7256)
    case 20 => Row(0xB5EA, 0xA5CB, 0x95A8, 0x8589, 0xF56E, 0xE54F, 0xD52C, 0xC50D)
    case 21 => Row(0x34E2, 0x24C3, 0x14A0, 0x0481, 0x7466, 0x6447, 0x5424, 0x4405)
    case 22 => Row(0xA7DB, 0xB7FA, 0x8799, 0x97B8, 0xE75F, 0xF77E, 0xC71D, 0xD73C)
    case _ => Row(0x26D3, 0x36F2, 0x0691, 0x16B0, 0x6657, 0x7676, 0x4615, 0x5634)
  }

  function RowsD(r: int): Row {
    match r
    case 24 => Row(0xD94C, 0xC96D, 0xF90E, 0xE92F, 0x99C8, 0x89E9, 0xB98A, 0xA9AB)
    case 25 => Row(0x5844, 0x4865, 0x7806, 0x6827, 0x18C0, 0x08E1, 0x3882, 0x28A3)
    case 26 => Row(0xCB7D, 0xDB5C, 0xEB3F, 0xFB1E, 0x8BF9, 0x9BD8, 0xABBB, 0xBB9A)
    case 27 => Row(0x4A75, 0x5A54, 0x6A37, 0x7A16, 0x0AF1, 0x1AD0, 0x2AB3, 0x3A92)
    case 28 => Row(0xFD2E, 0xED0F, 0xDD6C, 0xCD4D, 0xBDAA, 0xAD8B, 0x9DE8, 0x8DC9)
    case 29 => Row(0x7C26, 0x6C07, 0x5C64, 0x4C45, 0x3CA2, 0x2C83, 0x1CE0, 0x0CC1)
    case 30 => Row(0xEF1F, 0xFF3E, 0xCF5D, 0xDF7C, 0xAF9B, 0xBFBA, 0x8FD9, 0x9FF8)
    case _ => Row(0x6E17, 0x7E36, 0x4E55, 0x5E74, 0x2E93, 0x3EB2, 0x0ED1, 0x1EF0)
  }

  function TableRow(r: int): Row {
    if r < 16 then if r < 8 then RowsA(r) else RowsB(r)
    else if r < 24 then RowsC(r) else RowsD(r)
  }

  function ToWord(r: bv16): Word {
    Word(Octet(Nibble(r & 0x8000 != 0, r & 0x4000 != 0, r & 0x2000 != 0, r & 0x1000 != 0),
               Nibble(r & 0x0800 != 0, r & 0x0400 != 0, r & 0x0200 != 0, r & 0x0100 != 0)),
         Octet(Nibble(r & 0x0080 != 0, r & 0x0040 != 0, r & 0x0020 != 0, r & 0x0010 != 0),
               Nibble(r & 0x0008 != 0, r & 0x0004 != 0, r & 0x0002 != 0, r & 0x0001 != 0)))
  }

  function Column(row: Row, c: int): Word {
    ToWord(if c == 0 then row.t0 else if c == 1 then row.t1 else if c == 2 then row.t2 else if c == 3 then row.t3
           else if c == 4 then row.t4 else if c == 5 then row.t5 else if c == 6 then row.t6 else row.t7)
  }

  function Table(i: byte): Word {
    Column(TableRow(i / 8), i % 8)
  }

  const POLY := Shift(High(Octet(Nibble(true, false, false, false), ZERO4)))

  predicate Pair(t: bv16, even: bv16, odd: bv16) {
    ToWord(even) == Shift(ToWord(t)) && ToWord(odd) == Xor(ToWord(even), POLY)
  }

  /** Row a holds entries 8r to 8r+7; b and d hold 16r to 16r+15. */
  predicate Doubles(a: Row, b: Row, d: Row) {
    && Pair(a.t0, b.t0, b.t1) && Pair(a.t1, b.t2, b.t3) && Pair(a.t2, b.t4, b.t5) && Pair(a.t3, b.t6, b.t7)
    && Pair(a.t4, d.t0, d.t1) && Pair(a.t5, d.t2, d.t3) && Pair(a.t6, d.t4, d.t5) && Pair(a.t7, d.t6, d.t7)
  }

  lemma Row0() ensures Doubles(TableRow(0), TableRow(0), TableRow(1)) {}
  lemma Row1() ensures Doubles(TableRow(1), TableRow(2), TableRow(3)) {}
  lemma Row2() ensures Doubles(TableRow(2), TableRow(4), TableRow(5)) {}
  lemma Row3() ensures Doubles(TableRow(3), TableRow(6), TableRow(7)) {}
  lemma Row4() ensures Doubles(TableRow(4), TableRow(8), TableRow(9)) {}
  lemma Row5() ensures Doubles(TableRow(5), TableRow(10), TableRow(11)) {}
  lemma Row6() ensures Doubles(TableRow(6), TableRow(12), TableRow(13)) {}
  lemma Row7() ensures Doubles(TableRow(7), TableRow(14), TableRow(15)) {}
  lemma Row8() ensures Doubles(TableRow(8), TableRow(16), TableRow(17)) {}
  lemma Row9() ensures Doubles(TableRow(9), TableRow(18), TableRow(19)) {}
  lemma Row10() ensures Doubles(TableRow(10), TableRow(20), TableRow(21)) {}
  lemma Row11() ensures Doubles(TableRow(11), TableRow(22), TableRow(23)) {}
  lemma Row12() ensures Doubles(TableRow(12), TableRow(24), TableRow(25)) {}
  lemma Row13() ensures Doubles(TableRow(13), TableRow(26), TableRow(27)) {}
  lemma Row14() ensures Doubles(TableRow(14), TableRow(28), TableRow(29)) {}
  lemma Row15() ensures Doubles(TableRow(15), TableRow(30), TableRow(31)) {}

  lemma ColumnsDouble(a: Row, b: Row, d: Row, c: int)
    requires Doubles(a, b, d) && 0 <= c < 8
    ensures var next, k := (if c < 4 then b else d), (if c < 4 then 2 * c else 2 * c - 8);
            Column(next, k) == Shift(Column(a, c)) && Column(next, k + 1) == Xor(Column(next, k), POLY)
  {
    hide ToWord, Shift, Xor;
  }

  lemma RowDoubles(r: int)
    requires 0 <= r < 16
    ensures Doubles(TableRow(r), TableRow(2 * r), TableRow(2 * r + 1))
  {
    hide TableRow, Doubles;
    match r {
      case 0 => Row0();
      case 1 => Row1();
      case 2 => Row2();
      case 3 => Row3();
      case 4 => Row4();
      case 5 => Row5();
      case 6 => Row6();
      case 7 => Row7();
      case 8 => Row8();
      case 9 => Row9();
      case 10 => Row10();
      case 11 => Row11();
      case 12 => Row12();
      case 13 => Row13();
      case 14 => Row14();
      case _ => Row15();
    }
  }

  lemma TableDoubles(i: byte)
    requires i < 128
    ensures Table(2 * i) == Shift(Table(i)) && Table(2 * i + 1) == Xor(Table(2 * i), POLY)
  {
    hide TableRow, Column, Doubles, Shift, Xor;
    var r, c := i / 8, i % 8;
    RowDoubles(r);
    ColumnsDouble(TableRow(r), TableRow(2 * r), TableRow(2 * r + 1), c);
    Places(i);
  }

  lemma Places(i: int)
    requires 0 <= i < 128
    ensures var r, c := i / 8, i % 8;
            if c < 4 then 2 * i / 8 == 2 * r && 2 * i % 8 == 2 * c && (2 * i + 1) / 8 == 2 * r && (2 * i + 1) % 8 == 2 * c + 1
            else 2 * i / 8 == 2 * r + 1 && 2 * i % 8 == 2 * c - 8 && (2 * i + 1) / 8 == 2 * r + 1 && (2 * i + 1) % 8 == 2 * c - 7
  {
  }

  // ----- the register after eight shifts of an index doubles the same way -----

  function Entry(i: byte): Word {
    Shifts(High(ToOctet(i)), 8)
  }

  /** An octet moved up one place. */
  function Up(o: Octet, low: bool): Octet {
    Octet(Nibble(o.h.b2, o.h.b1, o.h.b0, o.l.b3), Nibble(o.l.b2, o.l.b1, o.l.b0, low))
  }

  lemma UpDoubles(i: byte, low: bool)
    requires i < 128
    ensures ToOctet(2 * i + if low then 1 else 0) == Up(ToOctet(i), low)
    ensures !ToOctet(i).h.b3
  {
    hide ToOctet;
    var o := ToOctet(i);
    OctetAndBack(i);
    assert FromOctet(Up(o, low)) == 2 * i + if low then 1 else 0;
    ByteAndBack(Up(o, low));
  }

  lemma OctetDoubles(i: byte)
    requires i < 128
    ensures High(ToOctet(2 * i)) == Shift(High(ToOctet(i)))
    ensures High(ToOctet(2 * i + 1)) == Xor(High(ToOctet(2 * i)), High(ToOctet(1)))
  {
    assert ToOctet(1) == Octet(ZERO4, Nibble(false, false, false, true));
    hide ToOctet;
    UpDoubles(i, false);
    UpDoubles(i, true);
  }

  lemma EntryDoubles(i: byte)
    requires i < 128
    ensures Entry(2 * i) == Shift(Entry(i)) && Entry(2 * i + 1) == Xor(Entry(2 * i), Entry(1))
  {
    hide Shift, Xor, ToOctet, High;
    OctetDoubles(i);
    var x := High(ToOctet(i));
    ShiftsAdd(x, 1, 8);
    ShiftsAdd(x, 8, 1);
    assert Shifts(x, 1) == Shift(x) && Shifts(Shifts(x, 8), 1) == Shift(Shifts(x, 8));
    ShiftsLinear(High(ToOctet(2 * i)), High(ToOctet(1)), 8);
  }

  /** Every one of the 256 entries is the register after eight shifts of its index. */
  lemma {:induction false} TableEntry(i: byte)
    ensures Table(i) == Entry(i)
  {
    hide Shift, Xor, Table, Entry;
    if i < 2 {
      FirstEntries();
    } else {
      TableEntry(i / 2);
      TableDoubles(i / 2);
      EntryDoubles(i / 2);
      FirstEntries();
    }
  }

  lemma FirstEntries()
    ensures Table(0) == ZERO && Entry(0) == ZERO
    ensures Table(1) == POLY && Entry(1) == POLY
  {
  }

  /** The two initial registers and the polynomial, as the sources print them. */
  lemma Registers()
    ensures ZERO == ToWord(0x0000) && ONES == ToWord(0xFFFF) && POLY == ToWord(0x1021)
  {
  }
}
