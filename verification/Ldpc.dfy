/** The systematic LDPC encoder of the 10 m HF codec (scripts/hf10m_ref.py, lines
    21, 22 and 41 to 47). The matrix is a parameter: 64 checks over 128 bits. */
module Ldpc {
  import opened Options
  import opened Gf2

  const INFO := 64
  const BLOCK := 128

  ghost predicate ParityCheck(H: Matrix) {
    |H| == INFO && forall r :: 0 <= r < INFO ==> |H[r]| == BLOCK
  }

  /** Information sits at 0 to 62 and at 67, parity everywhere else. */
  function InfoPart(x: Vec): (info: Vec)
    requires |x| == BLOCK
    ensures |info| == INFO
  {
    x[..63] + [x[67]]
  }

  function ParPart(x: Vec): (par: Vec)
    requires |x| == BLOCK
    ensures |par| == INFO
  {
    x[63..67] + x[68..]
  }

  function Join(info: Vec, par: Vec): (x: Vec)
    requires |info| == INFO && |par| == INFO
    ensures |x| == BLOCK && InfoPart(x) == info && ParPart(x) == par
  {
    var x := info[..63] + par[..4] + [info[63]] + par[4..];
    assert x[..63] == info[..63] && x[63..67] == par[..4] && x[68..] == par[4..];
    x
  }

  function ParMatrix(H: Matrix): (A: Matrix)
    requires ParityCheck(H)
    ensures Square(A, INFO)
  {
    seq(INFO, r requires 0 <= r < INFO => ParPart(H[r]))
  }

  function Rhs(H: Matrix, info: Vec): (b: Vec)
    requires ParityCheck(H) && |info| == INFO
    ensures |b| == INFO
  {
    seq(INFO, r requires 0 <= r < INFO => Dot(InfoPart(H[r]), info))
  }

  /** None is the solver finding the parity columns singular. */
  function Encode(H: Matrix, info: Vec): Option<Vec>
    requires ParityCheck(H) && |info| == INFO
  {
    match Solve(ParMatrix(H), Rhs(H, info))
    case Solved(par) => if |par| == INFO then Some(Join(info, par)) else None
    case Singular(_) => None
  }

  function InfoPos(k: nat): nat { if k < 63 then k else 67 }
  function ParPos(k: nat): nat { if k < 4 then 63 + k else 64 + k }

  /** The encoder as it fills its block in place. */
  method LdpcEncode(H: Matrix, info: Vec) returns (r: Option<Vec>)
    requires ParityCheck(H) && |info| == INFO
    ensures r == Encode(H, info)
  {
    hide ParMatrix, Rhs, Solve, Join;
    var solved := Gf2Solve(ParMatrix(H), Rhs(H, info));
    SolveCorrect(ParMatrix(H), Rhs(H, info));
    if solved.Singular? {
      return None;
    }
    var x := Fill(info, solved.x);
    return Some(x);
  }

  method Fill(info: Vec, par: Vec) returns (r: Vec)
    requires |info| == INFO && |par| == INFO
    ensures r == Join(info, par)
  {
    hide Join;
    var x := new bool[BLOCK](_ => false);
    for k := 0 to INFO
      invariant forall i :: 0 <= i < k ==> x[InfoPos(i)] == info[i]
    {
      x[InfoPos(k)] := info[k];
    }
    for k := 0 to INFO
      invariant forall i :: 0 <= i < INFO ==> x[InfoPos(i)] == info[i]
      invariant forall i :: 0 <= i < k ==> x[ParPos(i)] == par[i]
    {
      x[ParPos(k)] := par[k];
    }
    FilledIsJoined(x[..], info, par);
    r := x[..];
  }

  lemma FilledIsJoined(x: Vec, info: Vec, par: Vec)
    requires |x| == BLOCK && |info| == INFO && |par| == INFO
    requires forall i :: 0 <= i < INFO ==> x[InfoPos(i)] == info[i]
    requires forall i :: 0 <= i < INFO ==> x[ParPos(i)] == par[i]
    ensures x == Join(info, par)
  {
    var y := Join(info, par);
    forall c | 0 <= c < BLOCK ensures x[c] == y[c] {
      if c < 63 {
        assert x[InfoPos(c)] == info[c];
      } else if c == 67 {
        assert x[InfoPos(63)] == info[63];
      } else if c < 67 {
        assert x[ParPos(c - 63)] == par[c - 63];
      } else {
        assert x[ParPos(c - 64)] == par[c - 64];
      }
    }
  }

  // ----- what the encoder promises -----

  ghost predicate Codeword(H: Matrix, x: Vec) {
    InKernel(H, x)
  }

  /** A check splits into its information and its parity part. */
  lemma DotParts(row: Vec, info: Vec, par: Vec)
    requires |row| == BLOCK && |info| == INFO && |par| == INFO
    ensures Dot(row, Join(info, par)) == (Dot(InfoPart(row), info) != Dot(ParPart(row), par))
  {
    var a, b, c, d := row[..63], row[63..67], [row[67]], row[68..];
    var s, t, u, v := info[..63], par[..4], [info[63]], par[4..];
    assert row == a + b + c + d && info == s + u && par == t + v;
    DotConcat(a + b + c, d, s + t + u, v);
    DotConcat(a + b, c, s + t, u);
    DotConcat(a, b, s, t);
    DotConcat(a, c, s, u);
    DotConcat(b, d, t, v);
  }

  lemma CodewordIffSolves(H: Matrix, info: Vec, par: Vec)
    requires ParityCheck(H) && |info| == INFO && |par| == INFO
    ensures Codeword(H, Join(info, par)) <==> Solves(ParMatrix(H), Rhs(H, info), par)
  {
    var x := Join(info, par);
    forall r | 0 <= r < INFO ensures !Dot(H[r], x) <==> Dot(ParMatrix(H)[r], par) == Rhs(H, info)[r] {
      DotParts(H[r], info, par);
    }
    if Codeword(H, x) {
      forall r | 0 <= r < INFO ensures Dot(ParMatrix(H)[r], par) == Rhs(H, info)[r] {
        assert Dot(H[r], x) == Zeros(|H|)[r];
      }
    }
  }

  lemma JoinOfParts(x: Vec)
    requires |x| == BLOCK
    ensures Join(InfoPart(x), ParPart(x)) == x
  {
    FilledIsJoined(x, InfoPart(x), ParPart(x));
  }

  /** With independent parity columns every 64 bits have exactly one codeword
      that carries them in place, and the encoder returns it; otherwise it
      fails on every input. */
  lemma EncodeCorrect(H: Matrix, info: Vec)
    requires ParityCheck(H) && |info| == INFO
    ensures Encode(H, info).Some? <==> TrivialKernel(ParMatrix(H), INFO)
    ensures Encode(H, info).Some? ==>
              var x := Encode(H, info).value;
              |x| == BLOCK && InfoPart(x) == info &&
              forall y: Vec :: |y| == BLOCK && InfoPart(y) == info ==> (Codeword(H, y) <==> y == x)
  {
    var A, b := ParMatrix(H), Rhs(H, info);
    SolveCorrect(A, b);
    if Solve(A, b).Solved? {
      var x := Join(info, Solve(A, b).x);
      forall y: Vec | |y| == BLOCK && InfoPart(y) == info ensures Codeword(H, y) <==> y == x {
        JoinOfParts(y);
        CodewordIffSolves(H, info, ParPart(y));
      }
    }
  }

  lemma XorParts(x: Vec, y: Vec)
    requires |x| == BLOCK && |y| == BLOCK
    ensures InfoPart(Xor(x, y)) == Xor(InfoPart(x), InfoPart(y))
  {
  }

  /** Encoding is linear. */
  lemma EncodeLinear(H: Matrix, a: Vec, b: Vec)
    requires ParityCheck(H) && |a| == INFO && |b| == INFO && TrivialKernel(ParMatrix(H), INFO)
    ensures Encode(H, a).Some? && Encode(H, b).Some? && |Encode(H, a).value| == |Encode(H, b).value|
    ensures Encode(H, Xor(a, b)) == Some(Xor(Encode(H, a).value, Encode(H, b).value))
  {
    EncodeCorrect(H, a);
    EncodeCorrect(H, b);
    EncodeCorrect(H, Xor(a, b));
    var x, y := Encode(H, a).value, Encode(H, b).value;
    assert Codeword(H, x) && Codeword(H, y);
    SolutionPlusKernel(H, Zeros(|H|), x, y);
    XorParts(x, y);
  }

  // ----- a run of blocks, coded by any systematic block coder -----

  type Coder = Vec -> Vec

  ghost predicate Systematic(enc: Coder) {
    forall info: Vec :: |info| == INFO ==> |enc(info)| == BLOCK && InfoPart(enc(info)) == info
  }

  /** n blocks of information, one after the other. */
  function EncodeAll(enc: Coder, bits: Vec, n: nat): (coded: Vec)
    requires Systematic(enc) && |bits| == INFO * n
    ensures |coded| == BLOCK * n
  {
    if n == 0 then [] else enc(bits[..INFO]) + EncodeAll(enc, bits[INFO..], n - 1)
  }

  function InfoAll(coded: Vec, n: nat): (bits: Vec)
    requires |coded| == BLOCK * n
    ensures |bits| == INFO * n
  {
    if n == 0 then [] else InfoPart(coded[..BLOCK]) + InfoAll(coded[BLOCK..], n - 1)
  }

  /** Reading the information places of every block undoes the encoding. */
  lemma {:induction false} InfoOfEncoded(enc: Coder, bits: Vec, n: nat)
    requires Systematic(enc) && |bits| == INFO * n
    ensures InfoAll(EncodeAll(enc, bits, n), n) == bits
    decreases n
  {
    if n > 0 {
      var first, rest := enc(bits[..INFO]), EncodeAll(enc, bits[INFO..], n - 1);
      assert (first + rest)[..BLOCK] == first && (first + rest)[BLOCK..] == rest;
      InfoOfEncoded(enc, bits[INFO..], n - 1);
      assert bits == bits[..INFO] + bits[INFO..];
    }
  }

  ghost predicate AllCodewords(H: Matrix, coded: Vec, n: nat)
    requires |coded| == BLOCK * n
  {
    n > 0 ==> Codeword(H, coded[..BLOCK]) && AllCodewords(H, coded[BLOCK..], n - 1)
  }

  // ----- the code's own coder -----

  ghost predicate Code(H: Matrix) {
    ParityCheck(H) && TrivialKernel(ParMatrix(H), INFO)
  }

  function EncodeBlock(H: Matrix, info: Vec): (x: Vec)
    requires Code(H) && |info| == INFO
    ensures |x| == BLOCK && InfoPart(x) == info && Codeword(H, x) && Encode(H, info) == Some(x)
  {
    EncodeCorrect(H, info);
    Encode(H, info).value
  }

  function CoderOf(H: Matrix): Coder
    requires Code(H)
  {
    (info: Vec) => if |info| == INFO then EncodeBlock(H, info) else []
  }

  /** On every block this coder is the encoder of H, so it is systematic and makes
      nothing but codewords. */
  lemma CoderIsEncoder(H: Matrix)
    requires Code(H)
    ensures Systematic(CoderOf(H))
    ensures forall info: Vec :: |info| == INFO ==>
              Encode(H, info) == Some(CoderOf(H)(info)) && Codeword(H, CoderOf(H)(info))
  {
    hide Encode, InfoPart, InKernel, Codeword;
    var enc := CoderOf(H);
    forall info: Vec | |info| == INFO
      ensures |enc(info)| == BLOCK && InfoPart(enc(info)) == info
      ensures Encode(H, info) == Some(enc(info)) && Codeword(H, enc(info))
    {
      assert enc(info) == EncodeBlock(H, info);
    }
  }

  lemma {:induction false} BlocksAreCodewords(H: Matrix, enc: Coder, bits: Vec, n: nat)
    requires Systematic(enc) && |bits| == INFO * n
    requires forall info: Vec :: |info| == INFO ==> Codeword(H, enc(info))
    ensures AllCodewords(H, EncodeAll(enc, bits, n), n)
    decreases n
  {
    if n > 0 {
      var first, rest := enc(bits[..INFO]), EncodeAll(enc, bits[INFO..], n - 1);
      assert (first + rest)[..BLOCK] == first && (first + rest)[BLOCK..] == rest;
      BlocksAreCodewords(H, enc, bits[INFO..], n - 1);
    }
  }

  /** Every block that the code's encoder makes of a bit stream satisfies every
      check, and together they carry the stream. */
  lemma EncodedAreCodewords(H: Matrix, bits: Vec, n: nat)
    requires Code(H) && |bits| == INFO * n
    ensures Systematic(CoderOf(H))
    ensures AllCodewords(H, EncodeAll(CoderOf(H), bits, n), n) && InfoAll(EncodeAll(CoderOf(H), bits, n), n) == bits
  {
    hide Codeword, CoderOf, Code;
    CoderIsEncoder(H);
    BlocksAreCodewords(H, CoderOf(H), bits, n);
    InfoOfEncoded(CoderOf(H), bits, n);
  }

  // ----- the places, by number -----

  /** Information at columns 0 to 62 and 67, parity at 63 to 66 and from 68 on. */
  lemma PlacesByNumber(x: Vec, k: nat)
    requires |x| == 128 && k < 64
    ensures InfoPart(x)[k] == x[if k < 63 then k else 67]
    ensures ParPart(x)[k] == x[if k < 4 then 63 + k else 64 + k]
  {
  }

  /** A codeword shares an even number of ones with every row of the matrix. */
  lemma CodewordIffEven(H: Matrix, x: Vec)
    requires ParityCheck(H) && |x| == 128
    ensures |H| == 64 && forall r :: 0 <= r < 64 ==> |H[r]| == 128
    ensures Codeword(H, x) <==> forall r :: 0 <= r < 64 ==> Overlap(H[r], x) % 2 == 0
  {
    hide Dot, Overlap;
    forall r | 0 <= r < 64 ensures Dot(H[r], x) <==> Overlap(H[r], x) % 2 == 1 { DotIsParity(H[r], x); }
  }
}
