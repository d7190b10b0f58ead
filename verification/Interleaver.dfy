/** The block interleaver: a matrix of 16 columns written by rows and sent by
    columns (scripts/hf10m_ref.py, line 78). */
module Interleaver {

  const WIDTH := 16

  /** The place of the coded run that goes out at place k; rows is the height. */
  function Source(k: int, rows: int): int
    requires rows > 0
  {
    WIDTH * (k % rows) + k / rows
  }

  /** The place at which coded bit m goes out. */
  function Sent(m: int, rows: int): int {
    rows * (m % WIDTH) + m / WIDTH
  }

  lemma MulMono(d: int, a: int, b: int)
    requires 0 <= d && a <= b
    ensures d * a <= d * b
  {
  }

  lemma MulOrder(d: int, a: int, b: int)
    requires 0 < d
    ensures d * a < d * b <==> a < b
  {
    if a < b { MulMono(d, a + 1, b); } else { MulMono(d, b, a); }
  }

  /** Quotient and remainder are the only such pair. */
  lemma DivModOf(q: int, r: int, d: int)
    requires 0 <= r < d
    ensures (d * q + r) / d == q && (d * q + r) % d == r
  {
    var p := (d * q + r) / d;
    assert d * q + r == d * p + (d * q + r) % d;
    MulOrder(d, q, p + 1);
    MulOrder(d, p, q + 1);
  }

  lemma DivModBounds(k: int, d: int, w: int)
    requires d > 0 && 0 <= k < d * w
    ensures k == d * (k / d) + k % d && 0 <= k % d < d && 0 <= k / d < w
  {
    assert k == d * (k / d) + k % d;
    MulOrder(d, k / d, w);
    MulOrder(d, -1, k / d);
  }

  /** Bit k of the burst stands in row k % rows and column k / rows. */
  lemma SourceCell(k: int, rows: int)
    requires rows > 0 && 0 <= k < rows * WIDTH
    ensures 0 <= k % rows < rows && 0 <= k / rows < WIDTH && 0 <= Source(k, rows) < rows * WIDTH
    ensures Source(k, rows) / WIDTH == k % rows && Source(k, rows) % WIDTH == k / rows
  {
    DivModBounds(k, rows, WIDTH);
    DivModOf(k % rows, k / rows, WIDTH);
  }

  lemma SentCell(m: int, rows: int)
    requires rows > 0 && 0 <= m < rows * WIDTH
    ensures 0 <= m / WIDTH < rows && 0 <= Sent(m, rows) < rows * WIDTH
    ensures Sent(m, rows) / rows == m % WIDTH && Sent(m, rows) % rows == m / WIDTH
  {
    DivModBounds(m, WIDTH, rows);
    DivModOf(m % WIDTH, m / WIDTH, rows);
    MulMono(rows, m % WIDTH, WIDTH - 1);
    MulMono(rows, 0, m % WIDTH);
  }

  /** The two maps are inverse bijections of the run's places, for every height. */
  lemma PlacesAreBijective(i: int, rows: int)
    requires rows > 0 && 0 <= i < rows * WIDTH
    ensures 0 <= Source(i, rows) < rows * WIDTH && Sent(Source(i, rows), rows) == i
    ensures 0 <= Sent(i, rows) < rows * WIDTH && Source(Sent(i, rows), rows) == i
  {
    SourceCell(i, rows);
    DivModBounds(i, rows, WIDTH);
    SentCell(i, rows);
  }

  function Interleave<T>(coded: seq<T>, rows: nat): (sent: seq<T>)
    requires |coded| == rows * WIDTH
    ensures |sent| == |coded|
  {
    seq(|coded|, k requires 0 <= k < |coded| => PlacesAreBijective(k, rows); coded[Source(k, rows)])
  }

  function Undo<T>(sent: seq<T>, rows: nat): (coded: seq<T>)
    requires |sent| == rows * WIDTH
    ensures |coded| == |sent|
  {
    seq(|sent|, m requires 0 <= m < |sent| => PlacesAreBijective(m, rows); sent[Sent(m, rows)])
  }

  lemma UndoInterleave<T>(coded: seq<T>, rows: nat)
    requires |coded| == rows * WIDTH
    ensures Undo(Interleave(coded, rows), rows) == coded
  {
    forall m | 0 <= m < |coded| ensures Undo(Interleave(coded, rows), rows)[m] == coded[m] {
      PlacesAreBijective(m, rows);
    }
  }

  /** Two bits sent less than a column apart come from different rows. */
  lemma BurstSpreads(j: int, k: int, rows: int)
    requires rows > 0 && 0 <= j < k < rows * WIDTH && k < j + rows
    ensures Source(j, rows) / WIDTH != Source(k, rows) / WIDTH
  {
    SourceCell(j, rows);
    SourceCell(k, rows);
    RemaindersDiffer(j, k, rows);
  }

  lemma RemaindersDiffer(j: int, k: int, d: int)
    requires d > 0 && j < k < j + d
    ensures j % d != k % d
  {
    var p, q := j / d, k / d;
    assert j == d * p + j % d && k == d * q + k % d;
    assert d * q - d * p == d * (q - p);
    MulOrder(d, 0, q - p);
    MulOrder(d, q - p, 1);
  }

  // ----- a burst touches each codeword at most eight times -----

  function RowOf(k: int, rows: int): int
    requires rows > 0
  {
    Source(k, rows) / WIDTH
  }

  /** How many of len bits sent from start belong to one 128-bit codeword. */
  function HitCount(start: int, len: nat, rows: int, block: int): nat
    requires rows > 0
  {
    if len == 0 then 0
    else HitCount(start, len - 1, rows, block) + if Source(start + len - 1, rows) / 128 == block then 1 else 0
  }

  /** How many of them come from one row. */
  function RowCount(start: int, len: nat, rows: int, row: int): nat
    requires rows > 0
  {
    if len == 0 then 0
    else RowCount(start, len - 1, rows, row) + if RowOf(start + len - 1, rows) == row then 1 else 0
  }

  lemma {:induction false} RowMissed(start: int, len: nat, rows: int, row: int)
    requires rows > 0 && forall k :: start <= k < start + len ==> RowOf(k, rows) != row
    ensures RowCount(start, len, rows, row) == 0
  {
    if len > 0 { RowMissed(start, len - 1, rows, row); }
  }

  lemma {:induction false} RowHitAtMostOnce(start: nat, len: nat, rows: int, row: int)
    requires rows > 0 && len <= rows && start + len <= rows * WIDTH
    ensures RowCount(start, len, rows, row) <= 1
  {
    if len > 0 {
      RowHitAtMostOnce(start, len - 1, rows, row);
      var last := start + len - 1;
      if RowOf(last, rows) == row {
        forall k | start <= k < last ensures RowOf(k, rows) != row {
          BurstSpreads(k, last, rows);
        }
        RowMissed(start, len - 1, rows, row);
      }
    }
  }

  /** A codeword is eight rows, so its hits are theirs. */
  lemma {:induction false} BlockIsEightRows(start: nat, len: nat, rows: int, block: int)
    requires rows > 0 && start + len <= rows * WIDTH
    ensures var r := 8 * block;
            HitCount(start, len, rows, block) ==
            RowCount(start, len, rows, r) + RowCount(start, len, rows, r + 1) + RowCount(start, len, rows, r + 2) +
            RowCount(start, len, rows, r + 3) + RowCount(start, len, rows, r + 4) + RowCount(start, len, rows, r + 5) +
            RowCount(start, len, rows, r + 6) + RowCount(start, len, rows, r + 7)
  {
    hide Source;
    if len > 0 {
      BlockIsEightRows(start, len - 1, rows, block);
      SourceCell(start + len - 1, rows);
      EighthOfBlock(Source(start + len - 1, rows), block);
      OneOfEight(RowOf(start + len - 1, rows), 8 * block);
    }
  }

  lemma OneOfEight(row: int, r: int)
    ensures (if r <= row < r + 8 then 1 else 0) ==
            (if row == r then 1 else 0) + (if row == r + 1 then 1 else 0) + (if row == r + 2 then 1 else 0) +
            (if row == r + 3 then 1 else 0) + (if row == r + 4 then 1 else 0) + (if row == r + 5 then 1 else 0) +
            (if row == r + 6 then 1 else 0) + (if row == r + 7 then 1 else 0)
  {
  }

  lemma EighthOfBlock(m: int, block: int)
    requires m >= 0
    ensures m / 128 == block <==> 8 * block <= m / 16 < 8 * block + 8
  {
  }

  /** Any run of at most a column's length, in a burst of any number of blocks,
      touches each 16-bit row at most once and so each 128-bit codeword in at
      most eight bits. */
  lemma BurstHitsBlockEightTimes(n: nat, start: nat, len: nat, block: int)
    requires n > 0 && len <= 8 * n && start + len <= 8 * n * WIDTH
    ensures HitCount(start, len, 8 * n, block) <= 8
    ensures forall row :: RowCount(start, len, 8 * n, row) <= 1
  {
    forall row ensures RowCount(start, len, 8 * n, row) <= 1 {
      RowHitAtMostOnce(start, len, 8 * n, row);
    }
    BlockIsEightRows(start, len, 8 * n, block);
  }

  // ----- the matrix -----

  /** Written row by row, 16 to a row, and sent column by column. */
  lemma SentByColumns<T>(coded: seq<T>, rows: nat, r: nat, c: nat)
    requires |coded| == rows * 16 && r < rows && c < 16
    ensures 0 <= rows * c + r < |coded| && 0 <= 16 * r + c < |coded|
    ensures Interleave(coded, rows)[rows * c + r] == coded[16 * r + c]
  {
    DivModOf(c, r, rows);
    MulMono(rows, c, 15);
  }
}
