/** Callsigns packed as nine base-40 digits in six bytes (scripts/hf10m_ref.py,
    lines 13 and 59 to 64). */
module Radix40 {
  import opened Bytes

  const ALPHABET := " ABCDEFGHIJKLMNOPQRSTUVWXYZ0123456789/-."
  const PLACES := 9
  const OCTETS := 6

  datatype Result = Ok(bytes: seq<byte>) | NotInAlphabet | TooLarge

  function Upper(c: char): char {
    if 'a' <= c <= 'z' then (c as int - 32) as char else c
  }

  function UpperAll(s: string): string {
    seq(|s|, i requires 0 <= i < |s| => Upper(s[i]))
  }

  function Spaces(n: nat): string {
    seq(n, i => ' ')
  }

  /** Upper case, padded on the right to nine places; a longer call is left as it is. */
  function Padded(call: string): (p: string)
    ensures |p| == if |call| < PLACES then PLACES else |call|
  {
    UpperAll(call) + Spaces(if |call| < PLACES then PLACES - |call| else 0)
  }

  /** The first place of c at or after i, or the length of the string. */
  function IndexFrom(s: string, c: char, i: nat): (k: nat)
    requires i <= |s|
    ensures i <= k <= |s|
    ensures k < |s| ==> s[k] == c
    ensures forall j :: i <= j < k ==> s[j] != c
    decreases |s| - i
  {
    if i == |s| || s[i] == c then i else IndexFrom(s, c, i + 1)
  }

  predicate Known(c: char) {
    c in ALPHABET
  }

  function Index(c: char): (k: nat)
    ensures k <= 40
    ensures k < 40 ==> ALPHABET[k] == c
    ensures k < 40 <==> Known(c)
  {
    IndexFrom(ALPHABET, c, 0)
  }

  predicate Spelled(s: string) {
    forall i :: 0 <= i < |s| ==> Known(s[i])
  }

  function Value(s: string): nat {
    if s == "" then 0 else 40 * Value(s[..|s| - 1]) + Index(s[|s| - 1])
  }

  function Pow(b: nat, n: nat): nat {
    if n == 0 then 1 else b * Pow(b, n - 1)
  }

  function ToBytes(v: nat, n: nat): seq<byte> {
    if n == 0 then [] else ToBytes(v / 256, n - 1) + [v % 256]
  }

  function Radix40(call: string): Result {
    var p := Padded(call);
    if !Spelled(p) then NotInAlphabet
    else if Value(p) >= Pow(256, OCTETS) then TooLarge
    else Ok(ToBytes(Value(p), OCTETS))
  }

  /** The packing as an accumulating loop. */
  method Pack(call: string) returns (r: Result)
    ensures r == Radix40(call)
  {
    hide Padded, ToBytes, Pow, Index, Known;
    var p := Padded(call);
    var v := 0;
    for k := 0 to |p|
      invariant Spelled(p[..k]) && v == Value(p[..k])
    {
      var d := Index(p[k]);
      if d == 40 {
        assert !Known(p[k]);
        return NotInAlphabet;
      }
      assert p[..k + 1][..k] == p[..k];
      v := v * 40 + d;
    }
    assert p[..|p|] == p;
    if v >= Pow(256, OCTETS) {
      return TooLarge;
    }
    return Ok(ToBytes(v, OCTETS));
  }

  // ----- unpacking -----

  function FromBytes(s: seq<byte>): nat {
    if s == [] then 0 else 256 * FromBytes(s[..|s| - 1]) + s[|s| - 1]
  }

  function Spell(v: nat, n: nat): string {
    if n == 0 then "" else Spell(v / 40, n - 1) + [ALPHABET[v % 40]]
  }

  lemma {:induction false} BytesBack(v: nat, n: nat)
    requires v < Pow(256, n)
    ensures |ToBytes(v, n)| == n && FromBytes(ToBytes(v, n)) == v
  {
    if n > 0 {
      BytesBack(v / 256, n - 1);
      var front := ToBytes(v / 256, n - 1);
      assert (front + [v % 256])[..n - 1] == front;
    }
  }

  lemma {:induction false} SpellBack(s: string)
    requires Spelled(s)
    ensures Value(s) < Pow(40, |s|) && Spell(Value(s), |s|) == s
  {
    if s != "" {
      var front, d := s[..|s| - 1], Index(s[|s| - 1]);
      SpellBack(front);
      assert d < 40;
      assert Value(s) / 40 == Value(front) && Value(s) % 40 == d;
      assert s == front + [s[|s| - 1]];
    }
  }

  lemma NinePlacesFit()
    ensures Pow(40, PLACES) <= Pow(256, OCTETS)
  {
    assert Pow(40, 3) == 64000;
    assert Pow(40, 6) == 4096000000;
    assert Pow(40, 9) == 262144000000000;
    assert Pow(256, 6) == 281474976710656;
  }

  function Unpack(bytes: seq<byte>): string {
    Spell(FromBytes(bytes), PLACES)
  }

  /** A call of at most nine characters packs exactly when all of them are in the
      alphabet; the six bytes then give its padded upper-case form back, so no
      two such forms share a packing. */
  lemma PackedCallComesBack(call: string)
    requires |call| <= PLACES
    ensures Radix40(call).Ok? <==> Spelled(UpperAll(call))
    ensures Radix40(call).Ok? ==> |Radix40(call).bytes| == OCTETS && Unpack(Radix40(call).bytes) == Padded(call)
  {
    var p := Padded(call);
    assert ALPHABET[0] == ' ';
    if Spelled(UpperAll(call)) {
      forall i | 0 <= i < |p| ensures Known(p[i]) {
        if i < |call| { assert p[i] == UpperAll(call)[i]; } else { assert p[i] == ALPHABET[0]; }
      }
      SpellBack(p);
      NinePlacesFit();
      BytesBack(Value(p), OCTETS);
    } else {
      var i :| 0 <= i < |call| && !Known(UpperAll(call)[i]);
      assert p[i] == UpperAll(call)[i];
    }
  }

  // ----- digits and bytes, by number -----

  /** Space, the letters, the digits, slash, hyphen and dot, in this order. */
  function DigitOf(c: char): nat {
    if c == ' ' then 0
    else if 'A' <= c <= 'Z' then 1 + (c as int - 65)
    else if '0' <= c <= '9' then 27 + (c as int - 48)
    else if c == '/' then 37
    else if c == '-' then 38
    else if c == '.' then 39
    else 40
  }

  lemma AlphabetInOrder(k: nat)
    requires k < 40
    ensures DigitOf(ALPHABET[k]) == k
  {
  }

  lemma KnownByNumber(c: char)
    ensures DigitOf(c) < 40 ==> Known(c)
  {
    var k := DigitOf(c);
    if k < 40 {
      LetterAt(c);
      assert ALPHABET[k] == c;
    }
  }

  lemma LetterAt(c: char)
    requires DigitOf(c) < 40
    ensures ALPHABET[DigitOf(c)] == c
  {
  }

  lemma IndexByNumber(c: char)
    ensures Index(c) == DigitOf(c)
  {
    KnownByNumber(c);
    if Index(c) < 40 { AlphabetInOrder(Index(c)); }
  }

  lemma ValueAppend(s: string, c: char)
    ensures Value(s + [c]) == 40 * Value(s) + DigitOf(c)
  {
    IndexByNumber(c);
    assert (s + [c])[..|s|] == s;
  }

  /** Three places at a time, the first the most significant. */
  lemma ThreePlaces(s: string, a: char, b: char, c: char)
    ensures Value(s + [a, b, c]) == 64000 * Value(s) + 1600 * DigitOf(a) + 40 * DigitOf(b) + DigitOf(c)
  {
    hide Value, DigitOf;
    ValueAppend(s, a);
    ValueAppend(s + [a], b);
    ValueAppend(s + [a] + [b], c);
    assert s + [a] + [b] + [c] == s + [a, b, c];
  }

  /** Six bytes as one big-endian number. */
  function AsNumber(b: seq<byte>): nat
    requires |b| == 6
  {
    1099511627776 * Number(b[0]) + 4294967296 * Number(b[1]) + 16777216 * Number(b[2])
    + 65536 * Number(b[3]) + 256 * Number(b[4]) + Number(b[5])
  }

  /** Nine places read in base 40. */
  function AsPlaces(p: string): nat
    requires |p| == 9
  {
    64000 * (64000 * (1600 * DigitOf(p[0]) + 40 * DigitOf(p[1]) + DigitOf(p[2]))
             + 1600 * DigitOf(p[3]) + 40 * DigitOf(p[4]) + DigitOf(p[5]))
    + 1600 * DigitOf(p[6]) + 40 * DigitOf(p[7]) + DigitOf(p[8])
  }

  lemma OneMoreByte(b: seq<byte>)
    requires b != []
    ensures FromBytes(b) == 256 * FromBytes(b[..|b| - 1]) + Number(b[|b| - 1])
  {
  }

  lemma SixBytes(b: seq<byte>)
    requires |b| == 6
    ensures FromBytes(b) == AsNumber(b)
  {
    OneMoreByte(b);
    OneMoreByte(b[..5]);
    OneMoreByte(b[..4]);
    OneMoreByte(b[..3]);
    OneMoreByte(b[..2]);
    OneMoreByte(b[..1]);
    assert FromBytes([]) == 0;
    hide FromBytes;
    assert b[..5][..4] == b[..4] && b[..4][..3] == b[..3] && b[..3][..2] == b[..2] && b[..2][..1] == b[..1] && b[..1][..0] == [];
  }

  lemma NineDigits(p: string)
    requires |p| == 9
    ensures Value(p) == AsPlaces(p)
  {
    hide Value, DigitOf;
    NothingIsZero();
    ThreePlaces("", p[0], p[1], p[2]);
    ThreePlaces([p[0], p[1], p[2]], p[3], p[4], p[5]);
    var six := [p[0], p[1], p[2]] + [p[3], p[4], p[5]];
    ThreePlaces(six, p[6], p[7], p[8]);
    assert "" + [p[0], p[1], p[2]] == [p[0], p[1], p[2]];
    assert p == six + [p[6], p[7], p[8]];
  }

  /** The packed bytes are the nine places of the call, upper case and filled up with
      spaces, read in base 40. */
  lemma PackedNumber(call: string)
    requires |call| <= 9 && Radix40(call).Ok?
    ensures var b, p := Radix40(call).bytes, Padded(call);
            && |b| == 6 && |p| == 9 && AsNumber(b) == AsPlaces(p)
            && forall i :: 0 <= i < 9 ==>
                 p[i] == if i >= |call| then ' '
                         else if 'a' <= call[i] <= 'z' then (call[i] as int - 32) as char
                         else call[i]
  {
    hide Value, ToBytes, FromBytes, DigitOf, Spelled, AsNumber, AsPlaces;
    var p := Padded(call);
    PackedCallComesBack(call);
    BytesBack(Value(p), 6);
    SixBytes(Radix40(call).bytes);
    NineDigits(p);
  }

  lemma NothingIsZero()
    ensures Value("") == 0
  {
  }
}
