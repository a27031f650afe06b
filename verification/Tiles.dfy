/**
 The 128 by 128 tiles the extensions transpose: gathering one block from each of 128 rows and calling
 `matrix_transpose` yields 128 columns of the whole bit matrix.
 */
module Tiles {
  import opened Blocks
  import opened Memory
  import opened Indexing
  import opened Extension
  import Transpose

  /** The byte rows of a 128 by 128 bit matrix are its blocks. */
  lemma SquareRows(m: seq<Block>)
    requires |m| == 128
    ensures forall r | 0 <= r < 128 :: Transpose.Rows(m, 128, 16)[r] == m[r]
  {
    forall r | 0 <= r < 128 ensures Transpose.Row(m, 128, 16, r) == m[r] {
      forall q | 0 <= q < 16 ensures Transpose.Row(m, 128, 16, r)[q] == m[r][q] {
        assert Transpose.Row(m, 128, 16, r)[q] == ByteAt(m, r * 16 + q);
        assert (r * 16 + q) / 16 == r && (r * 16 + q) % 16 == q;
      }
    }
  }

  lemma SquareTranspose(a: seq<Block>, b: seq<Block>, x: nat, y: nat)
    requires |a| == 128 && |b| == 128 && x < 128 && y < 128
    requires Transpose.IsTranspose(Transpose.Rows(a, 128, 16), Transpose.Rows(b, 128, 16), 16, 16)
    ensures Bit(b[y], x) == Bit(a[x], y)
  {
    SquareRows(a);
    SquareRows(b);
    var ra, rb := Transpose.Rows(a, 128, 16), Transpose.Rows(b, 128, 16);
    assert Transpose.At(rb, y, x) == Transpose.At(ra, x, y);
  }

  /** Transposed block `k` of tile (`j`, `i`) is column `128i + k` of the rows `128j .. 128j+127`. */
  lemma TileIsColumns(t: seq<seq<Block>>, rows: nat, cols: nat, j: nat, i: nat, a: seq<Block>, b: seq<Block>, k: nat)
    requires Dims(t, rows, cols) && 128 * j + 128 <= rows && i < cols && k < 128
    requires |a| == 128 && |b| == 128
    requires forall x: nat | x < 128 :: a[x] == t[128 * j + x][i]
    requires Transpose.IsTranspose(Transpose.Rows(a, 128, 16), Transpose.Rows(b, 128, 16), 16, 16)
    ensures b[k] == Column(t, j, 128 * i + k)
  {
    var r := 128 * i + k;
    assert r / 128 == i && r % 128 == k;
    forall x: nat | x < 128 ensures Bit(b[k], x) == Bit(Column(t, j, r), x) {
      SquareTranspose(a, b, x, k);
      ColumnBit(t, j, r, x);
      assert a[x] == t[128 * j + x][i];
    }
    BlocksEqual(b[k], Column(t, j, r));
  }

  /** The gather loop and the transpose call, on buffers the callers reuse from tile to tile. */
  method TransposeTile(t: seq<seq<Block>>, rows: nat, cols: nat, j: nat, i: nat, input: array<Block>,
                       output: array<Block>)
    requires Dims(t, rows, cols) && 128 * j + 128 <= rows && i < cols
    requires input != output && input.Length == 128 && output.Length == 128
    modifies input, output
    ensures forall k: nat | k < 128 :: output[k] == Column(t, j, 128 * i + k)
  {
    for k := 0 to 128
      invariant forall x: nat | x < k :: input[x] == t[128 * j + x][i]
    {
      input[k] := t[j * 128 + k][i];
    }
    var _ := Transpose.MatrixTranspose(input, 128, 128, output);
    forall k: nat | k < 128 ensures output[k] == Column(t, j, 128 * i + k) {
      TileIsColumns(t, rows, cols, j, i, input[..], output[..], k);
    }
  }
}
