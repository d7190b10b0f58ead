/** Vectors and matrices over GF(2), and Gauss-Jordan elimination
    (scripts/hf10m_ref.py, lines 25 to 38). */
module Gf2 {

  type Vec = seq<bool>

  /** A sequence of rows. */
  type Matrix = seq<Vec>

  function Xor(a: Vec, b: Vec): Vec
    requires |a| == |b|
  {
    seq(|a|, i requires 0 <= i < |a| => a[i] != b[i])
  }

  function Zeros(n: nat): Vec {
    seq(n, i => false)
  }

  function Dot(a: Vec, x: Vec): bool
    requires |a| == |x|
  {
    if a == [] then false else (a[0] && x[0]) != Dot(a[1..], x[1..])
  }

  ghost predicate Square(A: Matrix, n: nat) {
    |A| == n && forall r :: 0 <= r < n ==> |A[r]| == n
  }

  ghost predicate Solves(A: Matrix, b: Vec, x: Vec)
    requires |b| == |A|
  {
    forall r :: 0 <= r < |A| ==> |A[r]| == |x| && Dot(A[r], x) == b[r]
  }

  ghost predicate InKernel(A: Matrix, x: Vec) {
    Solves(A, Zeros(|A|), x)
  }

  ghost predicate TrivialKernel(A: Matrix, n: nat) {
    forall x: Vec :: |x| == n && InKernel(A, x) ==> x == Zeros(n)
  }

  // ----- dot products -----

  lemma {:induction false} DotXor(a: Vec, b: Vec, x: Vec)
    requires |a| == |b| == |x|
    ensures Dot(Xor(a, b), x) == (Dot(a, x) != Dot(b, x))
  {
    if a != [] {
      assert Xor(a, b)[1..] == Xor(a[1..], b[1..]);
      DotXor(a[1..], b[1..], x[1..]);
    }
  }

  lemma {:induction false} DotCommutes(a: Vec, x: Vec)
    requires |a| == |x|
    ensures Dot(a, x) == Dot(x, a)
  {
    if a != [] { DotCommutes(a[1..], x[1..]); }
  }

  lemma {:induction false} DotConcat(a: Vec, b: Vec, x: Vec, y: Vec)
    requires |a| == |x| && |b| == |y|
    ensures Dot(a + b, x + y) == (Dot(a, x) != Dot(b, y))
  {
    if a == [] {
      assert a + b == b && x + y == y;
    } else {
      assert (a + b)[1..] == a[1..] + b && (x + y)[1..] == x[1..] + y;
      DotConcat(a[1..], b, x[1..], y);
    }
  }

  lemma {:induction false} DotDisjoint(a: Vec, x: Vec)
    requires |a| == |x| && forall i :: 0 <= i < |a| ==> !(a[i] && x[i])
    ensures !Dot(a, x)
  {
    if a != [] { DotDisjoint(a[1..], x[1..]); }
  }

  /** Changing one place of x changes the product by that place of a. */
  lemma {:induction false} DotFlip(a: Vec, x: Vec, i: nat)
    requires |a| == |x| && i < |x|
    ensures Dot(a, x[i := !x[i]]) == (Dot(a, x) != a[i])
    decreases i
  {
    var y := x[i := !x[i]];
    if i == 0 {
      assert y[1..] == x[1..];
    } else {
      assert y[1..] == x[1..][i - 1 := !x[1..][i - 1]];
      DotFlip(a[1..], x[1..], i - 1);
    }
  }

  // ----- the elimination -----

  datatype Result = Solved(x: Vec) | Singular(col: nat)

  /** The first row at or below r with a one in this column, or the row count. */
  function Pivot(A: Matrix, col: nat, r: nat): (p: nat)
    requires r <= |A| && forall i :: 0 <= i < |A| ==> col < |A[i]|
    ensures r <= p <= |A|
    ensures forall i :: r <= i < p ==> !A[i][col]
    ensures p < |A| ==> A[p][col]
    decreases |A| - r
  {
    if r == |A| || A[r][col] then r else Pivot(A, col, r + 1)
  }

  function Swap<T>(s: seq<T>, i: nat, j: nat): seq<T>
    requires i < |s| && j < |s|
  {
    s[i := s[j]][j := s[i]]
  }

  /** Add the pivot row to every other row with a one in its column. */
  function Clear(A: Matrix, n: nat, col: nat): Matrix
    requires Square(A, n) && col < n
  {
    seq(n, r requires 0 <= r < n => if r != col && A[r][col] then Xor(A[r], A[col]) else A[r])
  }

  function ClearRhs(A: Matrix, b: Vec, n: nat, col: nat): Vec
    requires Square(A, n) && |b| == n && col < n
  {
    seq(n, r requires 0 <= r < n => if r != col && A[r][col] then b[r] != b[col] else b[r])
  }

  function Eliminate(A: Matrix, b: Vec, n: nat, col: nat): Result
    requires Square(A, n) && |b| == n && col <= n
    decreases n - col
  {
    if col == n then Solved(b)
    else
      var p := Pivot(A, col, col);
      if p == n then Singular(col)
      else
        var A1, b1 := Swap(A, col, p), Swap(b, col, p);
        Eliminate(Clear(A1, n, col), ClearRhs(A1, b1, n, col), n, col + 1)
  }

  function Solve(A: Matrix, b: Vec): Result
    requires Square(A, |A|) && |b| == |A|
  {
    Eliminate(A, b, |A|, 0)
  }

  // ----- the same in place -----

  /** Rows swapped and added in place on copies; a missing pivot is the failure
      of the search for one. */
  method Gf2Solve(A: Matrix, b: Vec) returns (result: Result)
    requires Square(A, |A|) && |b| == |A|
    ensures result == Solve(A, b)
  {
    var n := |A|;
    var a := new Vec[n](i requires 0 <= i < n => A[i]);
    var v := new bool[n](i requires 0 <= i < n => b[i]);
    assert a[..] == A && v[..] == b;
    hide Clear, ClearRhs, Swap, Pivot;
    var col := 0;
    while col < n
      invariant 0 <= col <= n && a.Length == n && v.Length == n
      invariant Square(a[..], n)
      invariant Eliminate(a[..], v[..], n, col) == Solve(A, b)
    {
      var piv := FindPivot(a, n, col);
      if piv == n {
        return Singular(col);
      }
      SwapRows(a, v, n, col, piv);
      ClearColumn(a, v, n, col);
      col := col + 1;
    }
    result := Solved(v[..]);
  }

  method FindPivot(a: array<Vec>, n: nat, col: nat) returns (piv: nat)
    requires a.Length == n && col < n && Square(a[..], n)
    ensures piv == Pivot(a[..], col, col)
  {
    piv := col;
    while piv < n && !a[piv][col]
      invariant col <= piv <= n
      invariant Pivot(a[..], col, piv) == Pivot(a[..], col, col)
    {
      piv := piv + 1;
    }
  }

  method SwapRows(a: array<Vec>, v: array<bool>, n: nat, i: nat, j: nat)
    requires a.Length == v.Length == n && i < n && j < n && Square(a[..], n)
    modifies a, v
    ensures a[..] == Swap(old(a[..]), i, j) && v[..] == Swap(old(v[..]), i, j)
    ensures Square(a[..], n)
  {
    a[i], a[j] := a[j], a[i];
    v[i], v[j] := v[j], v[i];
  }

  method ClearColumn(a: array<Vec>, v: array<bool>, n: nat, col: nat)
    requires a.Length == v.Length == n && col < n && Square(a[..], n)
    modifies a, v
    ensures a[..] == Clear(old(a[..]), n, col)
    ensures v[..] == ClearRhs(old(a[..]), old(v[..]), n, col)
    ensures Square(a[..], n)
  {
    ghost var a0, v0 := a[..], v[..];
    ghost var a1, v1 := Clear(a0, n, col), ClearRhs(a0, v0, n, col);
    for r := 0 to n
      invariant forall i :: 0 <= i < n ==> a[i] == (if i < r then a1[i] else a0[i])
      invariant forall i :: 0 <= i < n ==> v[i] == (if i < r then v1[i] else v0[i])
    {
      if r != col && a[r][col] {
        a[r] := Xor(a[r], a[col]);
        v[r] := v[r] != v[col];
      }
    }
    assert a[..] == a1 && v[..] == v1;
  }

  // ----- what elimination keeps -----

  /** Columns before col are those of the identity. */
  ghost predicate Reduced(A: Matrix, n: nat, col: nat)
    requires Square(A, n) && col <= n
  {
    forall r, c :: 0 <= r < n && 0 <= c < col ==> A[r][c] == (r == c)
  }

  lemma StepReduces(A: Matrix, n: nat, col: nat, p: nat)
    requires Square(A, n) && col < n && Reduced(A, n, col)
    requires col <= p < n && A[p][col]
    ensures Square(Swap(A, col, p), n)
    ensures Square(Clear(Swap(A, col, p), n, col), n) && Reduced(Clear(Swap(A, col, p), n, col), n, col + 1)
  {
  }

  lemma SwapKeeps(A: Matrix, b: Vec, n: nat, i: nat, j: nat, x: Vec)
    requires Square(A, n) && |b| == n == |x| && i < n && j < n
    ensures Solves(Swap(A, i, j), Swap(b, i, j), x) <==> Solves(A, b, x)
  {
    var A1, b1 := Swap(A, i, j), Swap(b, i, j);
    if Solves(A1, b1, x) {
      forall r | 0 <= r < n ensures Dot(A[r], x) == b[r] {
        var q := if r == i then j else if r == j then i else r;
        assert A1[q] == A[r] && b1[q] == b[r];
      }
    }
  }

  lemma ClearKeeps(A: Matrix, b: Vec, n: nat, col: nat, x: Vec)
    requires Square(A, n) && |b| == n == |x| && col < n
    ensures Solves(Clear(A, n, col), ClearRhs(A, b, n, col), x) <==> Solves(A, b, x)
  {
    var A1, b1 := Clear(A, n, col), ClearRhs(A, b, n, col);
    forall r | 0 <= r < n ensures Dot(Xor(A[r], A[col]), x) == (Dot(A[r], x) != Dot(A[col], x)) {
      DotXor(A[r], A[col], x);
    }
    if Solves(A1, b1, x) {
      assert A1[col] == A[col] && b1[col] == b[col];
      forall r | 0 <= r < n ensures Dot(A[r], x) == b[r] {
        assert Dot(A1[r], x) == b1[r];
      }
    }
  }

  lemma StepKeeps(A: Matrix, b: Vec, n: nat, col: nat, p: nat, x: Vec)
    requires Square(A, n) && |b| == n == |x| && col < n && p < n
    requires Square(Swap(A, col, p), n)
    ensures var A1, b1 := Swap(A, col, p), Swap(b, col, p);
            Solves(Clear(A1, n, col), ClearRhs(A1, b1, n, col), x) <==> Solves(A, b, x)
  {
    SwapKeeps(A, b, n, col, p, x);
    ClearKeeps(Swap(A, col, p), Swap(b, col, p), n, col, x);
  }

  lemma StepKeepsKernel(A: Matrix, n: nat, col: nat, p: nat, x: Vec)
    requires Square(A, n) && |x| == n && col < n && p < n
    requires Square(Swap(A, col, p), n)
    ensures InKernel(Clear(Swap(A, col, p), n, col), x) <==> InKernel(A, x)
  {
    StepKeeps(A, Zeros(n), n, col, p, x);
    assert Swap(Zeros(n), col, p) == Zeros(n);
    assert ClearRhs(Swap(A, col, p), Zeros(n), n, col) == Zeros(n);
  }

  lemma DotUnit(row: Vec, x: Vec, r: nat)
    requires |row| == |x| && r < |row| && forall c :: 0 <= c < |row| ==> row[c] == (c == r)
    ensures Dot(row, x) == x[r]
  {
    if x[r] {
      var y := x[r := false];
      DotDisjoint(row, y);
      DotFlip(row, y, r);
      assert y[r := !y[r]] == x;
    } else {
      DotDisjoint(row, x);
    }
  }

  lemma IdentitySolves(A: Matrix, b: Vec, n: nat, x: Vec)
    requires Square(A, n) && |b| == n == |x| && Reduced(A, n, n)
    ensures Solves(A, b, x) <==> x == b
  {
    forall r | 0 <= r < n ensures Dot(A[r], x) == x[r] {
      DotUnit(A[r], x, r);
    }
  }

  /** A column without a pivot gives a kernel vector: its own entries above the
      diagonal, and a one on it. */
  function Witness(A: Matrix, n: nat, col: nat): Vec
    requires Square(A, n) && col < n
  {
    seq(n, i requires 0 <= i < n => if i < col then A[i][col] else i == col)
  }

  lemma WitnessInKernel(A: Matrix, n: nat, col: nat)
    requires Square(A, n) && col < n && Reduced(A, n, col)
    requires forall i :: col <= i < n ==> !A[i][col]
    ensures InKernel(A, Witness(A, n, col))
  {
    var w := Witness(A, n, col);
    forall r | 0 <= r < n ensures !Dot(A[r], w) {
      if r < col && A[r][col] {
        var y := w[col := false][r := false];
        DotDisjoint(A[r], y);
        DotFlip(A[r], y, r);
        var z := y[r := !y[r]];
        DotFlip(A[r], z, col);
        assert z[col := !z[col]] == w;
      } else {
        DotDisjoint(A[r], w);
      }
    }
  }

  ghost predicate KernelVectorAt(A: Matrix, col: nat, x: Vec)
  {
    InKernel(A, x) && col < |x| && x[col] && forall i :: col < i < |x| ==> !x[i]
  }

  /** Either the result is the one and only solution, or the failing column has a
      kernel vector that ends in it. */
  lemma {:induction false} EliminateCorrect(A: Matrix, b: Vec, n: nat, col: nat)
    requires Square(A, n) && |b| == n && col <= n && Reduced(A, n, col)
    ensures match Eliminate(A, b, n, col)
            case Solved(s) => |s| == n && forall x: Vec :: |x| == n ==> (Solves(A, b, x) <==> x == s)
            case Singular(c) => c < n && exists x: Vec :: |x| == n && KernelVectorAt(A, c, x)
    decreases n - col
  {
    if col == n {
      forall x: Vec | |x| == n ensures Solves(A, b, x) <==> x == b {
        IdentitySolves(A, b, n, x);
      }
    } else {
      var p := Pivot(A, col, col);
      if p == n {
        WitnessInKernel(A, n, col);
        assert KernelVectorAt(A, col, Witness(A, n, col));
      } else {
        StepReduces(A, n, col, p);
        var A1, b1 := Swap(A, col, p), Swap(b, col, p);
        var A2, b2 := Clear(A1, n, col), ClearRhs(A1, b1, n, col);
        EliminateCorrect(A2, b2, n, col + 1);
        match Eliminate(A2, b2, n, col + 1)
        case Solved(s) =>
          forall x: Vec | |x| == n ensures Solves(A, b, x) <==> x == s {
            StepKeeps(A, b, n, col, p, x);
          }
        case Singular(c) =>
          var x: Vec :| |x| == n && KernelVectorAt(A2, c, x);
          StepKeepsKernel(A, n, col, p, x);
          assert KernelVectorAt(A, c, x);
      }
    }
  }

  /** The solver succeeds exactly on matrices with a trivial kernel; then its
      answer is the unique solution, and otherwise a nonzero kernel vector ends
      at the column where the pivot search failed. */
  lemma SolveCorrect(A: Matrix, b: Vec)
    requires Square(A, |A|) && |b| == |A|
    ensures Solve(A, b).Solved? <==> TrivialKernel(A, |A|)
    ensures Solve(A, b).Solved? ==>
              |Solve(A, b).x| == |A| && forall y: Vec :: |y| == |A| ==> (Solves(A, b, y) <==> y == Solve(A, b).x)
    ensures Solve(A, b).Singular? ==>
              exists k: Vec :: |k| == |A| && KernelVectorAt(A, Solve(A, b).col, k) && k != Zeros(|A|)
  {
    var n := |A|;
    EliminateCorrect(A, b, n, 0);
    match Solve(A, b)
    case Solved(s) =>
      forall x: Vec | |x| == n && InKernel(A, x) ensures x == Zeros(n) {
        SolutionPlusKernel(A, b, s, x);
        assert Xor(s, x) == s;
        forall i | 0 <= i < n ensures !x[i] { assert Xor(s, x)[i] == s[i]; }
      }
    case Singular(c) =>
      var k: Vec :| |k| == n && KernelVectorAt(A, c, k);
      assert k[c] && !Zeros(n)[c];
  }

  lemma SolutionPlusKernel(A: Matrix, b: Vec, s: Vec, x: Vec)
    requires |b| == |A| && |s| == |x| && Solves(A, b, s) && InKernel(A, x)
    ensures Solves(A, b, Xor(s, x))
  {
    forall r | 0 <= r < |A| ensures Dot(A[r], Xor(s, x)) == b[r] {
      assert Dot(A[r], x) == Zeros(|A|)[r];
      DotXorRight(A[r], s, x);
    }
  }

  lemma DotXorRight(a: Vec, x: Vec, y: Vec)
    requires |a| == |x| == |y|
    ensures Dot(a, Xor(x, y)) == (Dot(a, x) != Dot(a, y))
  {
    DotCommutes(a, Xor(x, y));
    DotXor(x, y, a);
    DotCommutes(x, a);
    DotCommutes(y, a);
  }

  // ----- the product, counted -----

  function Overlap(a: Vec, x: Vec): nat
    requires |a| == |x|
  {
    if a == [] then 0 else Overlap(a[1..], x[1..]) + if a[0] && x[0] then 1 else 0
  }

  /** A row times a vector is one exactly when they share an odd number of ones. */
  lemma {:induction false} DotIsParity(a: Vec, x: Vec)
    requires |a| == |x|
    ensures Dot(a, x) <==> Overlap(a, x) % 2 == 1
  {
    if a != [] { DotIsParity(a[1..], x[1..]); }
  }
}
