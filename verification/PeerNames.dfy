/** Interface names ble_peer_N (internal/api/ble_peer_manager.go, lines 300 to 319). */
module PeerNames {

  const MAX_INT := 0x7FFF_FFFF_FFFF_FFFF

  function Pow10(n: nat): nat {
    if n == 0 then 1 else 10 * Pow10(n - 1)
  }

  function DigitChar(d: int): char
    requires 0 <= d < 10
  {
    (d + 48) as char
  }

  function Digits(i: nat): string {
    if i == 0 then "" else Digits(i / 10) + [DigitChar(i % 10)]
  }

  /** Zero is one digit; a negative number has none. */
  function Decimal(i: int): string {
    if i == 0 then "0" else if i < 0 then "" else Digits(i)
  }

  lemma Nineteen()
    ensures MAX_INT < Pow10(19)
  {
    assert Pow10(7) == 1_0000000;
    assert Pow10(14) == 1_00000000000000;
    assert Pow10(19) == 1_0000000000000000000;
  }

  /** The digits are laid from the end of a 20-byte buffer, which no 63-bit value
      overruns. */
  method Itoa(n: int) returns (s: string)
    requires -MAX_INT - 1 <= n <= MAX_INT
    ensures s == Decimal(n)
  {
    if n == 0 {
      return "0";
    }
    var buf := new char[20](_ => ' ');
    var pos, i := 20, n;
    Nineteen();
    hide Digits, Pow10;
    while i > 0
      invariant 0 <= pos <= 20
      invariant n < 0 ==> i == n && pos == 20
      invariant n > 0 ==> 0 <= i && pos > 0 && i < Pow10(pos - 1) && Digits(i) + buf[pos..] == Digits(n)
    {
      RoomForOneMore(i, pos);
      LastDigit(i, buf[pos..]);
      pos := pos - 1;
      buf[pos] := DigitChar(i % 10);
      i := i / 10;
    }
    if n > 0 { NoDigits(); }
    s := buf[pos..];
  }

  lemma RoomForOneMore(i: nat, pos: nat)
    requires 0 < i && 0 < pos && i < Pow10(pos - 1)
    ensures 1 < pos && i / 10 < Pow10(pos - 2)
  {
  }

  lemma LastDigit(i: nat, tail: string)
    requires i > 0
    ensures Digits(i) + tail == Digits(i / 10) + ([DigitChar(i % 10)] + tail)
  {
  }

  lemma NoDigits()
    ensures Digits(0) == ""
  {
  }

  function ValueOf(s: string): int {
    if s == "" then 0 else 10 * ValueOf(s[..|s| - 1]) + (s[|s| - 1] as int - 48)
  }

  lemma {:induction false} DigitsValue(i: nat)
    ensures ValueOf(Digits(i)) == i
  {
    if i > 0 {
      DigitsValue(i / 10);
      var front, d := Digits(i / 10), DigitChar(i % 10);
      assert (front + [d])[..|front|] == front;
    }
  }

  function PeerName(i: nat): string {
    "ble_peer_" + Decimal(i)
  }

  /** No two sequence numbers share a name. */
  lemma NamesAreDistinct(i: nat, j: nat)
    requires PeerName(i) == PeerName(j)
    ensures i == j
  {
    var p := "ble_peer_";
    assert PeerName(i)[|p|..] == Decimal(i) && PeerName(j)[|p|..] == Decimal(j);
    DecimalValue(i);
    DecimalValue(j);
  }

  lemma DecimalValue(i: nat)
    ensures ValueOf(Decimal(i)) == i
  {
    DigitsValue(i);
    if i == 0 {
      assert "0"[..0] == "" && ValueOf("") == 0 && '0' as int == 48;
    }
  }

  /** A name is the prefix and then the number in decimal digits. */
  lemma NameReadsBack(i: nat)
    ensures |PeerName(i)| > 9 && PeerName(i)[..9] == "ble_peer_" && ValueOf(PeerName(i)[9..]) == i
  {
    var p := "ble_peer_";
    assert PeerName(i) == p + Decimal(i);
    assert PeerName(i)[9..] == Decimal(i);
    DecimalValue(i);
  }
}
