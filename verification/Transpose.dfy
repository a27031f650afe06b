/**
 `matrix_transpose`: the SIMD bit transpose of a packed matrix, proved against the one-line
 specification "output bit (y, x) is input bit (x, y)".
 */
module Transpose {
  import opened Blocks
  import opened Indexing
  import opened Memory
  import opened Outcome
  import Simd

  // ---------- a packed buffer as a matrix ----------

  predicate Shape(v: seq<seq<bv8>>, n: nat, stride: nat) {
    |v| == n && forall r | 0 <= r < n :: |v[r]| == stride
  }

  /** The buffer `m` as `n` rows of `stride` bytes. */
  function Rows(m: seq<Block>, n: nat, stride: nat): (v: seq<seq<bv8>>)
    requires n * stride <= 16 * |m|
    ensures Shape(v, n, stride)
  {
    seq(n, r requires 0 <= r < n => Row(m, n, stride, r))
  }

  function Row(m: seq<Block>, n: nat, stride: nat, r: nat): (w: seq<bv8>)
    requires n * stride <= 16 * |m| && r < n
    ensures |w| == stride
  {
    seq(stride, q requires 0 <= q < stride => AddressInRange(n, stride, r, q); ByteAt(m, r * stride + q))
  }

  /** Bit `c` of row `r`. */
  predicate At(v: seq<seq<bv8>>, r: nat, c: nat)
    requires r < |v| && c < 8 * |v[r]|
  {
    ByteBit(v[r][c / 8], c % 8)
  }

  /** Row `y`, bit `x` of `b` is row `x`, bit `y` of `a`. */
  predicate IsTranspose(a: seq<seq<bv8>>, b: seq<seq<bv8>>, rb: nat, cb: nat)
    requires Shape(a, 8 * rb, cb) && Shape(b, 8 * cb, rb)
  {
    forall x: nat, y: nat | x < 8 * rb && y < 8 * cb :: At(b, y, x) == At(a, x, y)
  }

  // ---------- one tile ----------

  /** Byte `q` of row `y` of `b` holds bits `8q .. 8q+7` of column `y` of `a`. */
  predicate ByteDone(a: seq<seq<bv8>>, b: seq<seq<bv8>>, rb: nat, cb: nat, y: nat, q: nat)
    requires Shape(a, 8 * rb, cb) && Shape(b, 8 * cb, rb) && y < 8 * cb && q < rb
  {
    forall m: nat | m < 8 :: ByteBit(b[y][q], m) == At(a, 8 * q + m, y)
  }

  /** The 16 bytes `_mm_set_epi8` gathers: byte column `w` of rows `i .. i+15`. */
  function Gather(a: seq<seq<bv8>>, i: nat, w: nat): (b: seq<bv8>)
    requires i + 16 <= |a| && forall r | i <= r < i + 16 :: w < |a[r]|
    ensures |b| == 16
  {
    seq(16, r requires 0 <= r < 16 => a[i + r][w])
  }

  /** What movemask yields after `s` shifts is bit column `8w + 7 - s` of the gathered rows. */
  lemma TileColumn(a: seq<seq<bv8>>, i: nat, w: nat, s: nat, h: nat, m: nat, x: nat, y: nat)
    requires i + 16 <= |a| && forall r | i <= r < i + 16 :: w < |a[r]|
    requires s < 8 && h < 2 && m < 8 && x == i + 8 * h + m && y == 8 * w + (7 - s)
    ensures ByteBit(Simd.MovemaskEpi8(Simd.Shifted(Simd.SetEpi8(Gather(a, i, w)), s))[h], m) == At(a, x, y)
  {
    var b := 8 * h + m;
    assert b / 8 == h && b % 8 == m;
    Simd.MovemaskColumn(Gather(a, i, w), s, b);
    assert Gather(a, i, w)[b] == a[x][w];
    assert y / 8 == w && y % 8 == 7 - s;
  }

  /** A 16-bit little-endian store through the byte pointer of `out`. */
  method Store16(out: array<Block>, address: nat, word: seq<bv8>)
    requires address % 2 == 0 && address + 1 < 16 * out.Length && |word| == 2
    modifies out
    ensures forall p: nat | p < 16 * out.Length ::
      ByteAt(out[..], p) == if p == address then word[0] else if p == address + 1 then word[1] else old(ByteAt(out[..], p))
  {
    var k, b := address / 16, address % 16;
    out[k] := out[k][b := word[0]][b + 1 := word[1]];
    forall p: nat | p < 16 * out.Length
      ensures ByteAt(out[..], p) == if p == address then word[0] else if p == address + 1 then word[1] else old(ByteAt(out[..], p))
    {
      assert p == 16 * (p / 16) + p % 16;
    }
  }

  /** The rows of a buffer after one 16-bit store at byte `u` of row `y`. */
  lemma StoredRows(m: seq<Block>, m': seq<Block>, n: nat, stride: nat, y: nat, u: nat, word: seq<bv8>)
    requires |m'| == |m| && n * stride <= 16 * |m| && y < n && u + 1 < stride && |word| == 2
    requires forall p: nat | p < 16 * |m| ::
      ByteAt(m', p) == if p == y * stride + u then word[0] else if p == y * stride + u + 1 then word[1] else ByteAt(m, p)
    ensures Rows(m', n, stride) == Rows(m, n, stride)[y := Rows(m, n, stride)[y][u := word[0]][u + 1 := word[1]]]
  {
    var v := Rows(m, n, stride);
    var w := v[y := v[y][u := word[0]][u + 1 := word[1]]];
    forall r | 0 <= r < n ensures Row(m', n, stride, r) == w[r] {
      forall q | 0 <= q < stride ensures Row(m', n, stride, r)[q] == w[r][q] {
        AddressInRange(n, stride, r, q);
        if r != y {
          AddressDistinct(stride, r, q, y, u);
          AddressDistinct(stride, r, q, y, u + 1);
        }
      }
    }
  }

  /** The byte offset of bit `c` of row `r` when a row is `width` bits long. */
  function Offset(r: nat, c: nat, width: nat): nat {
    r * (width / 8) + c / 8
  }

  /** `f` and `g` multiply before they divide; with whole bytes per row that is the same. */
  lemma OffsetForm(r: nat, c: nat, width: nat)
    requires width % 8 == 0
    ensures r * width / 8 + c / 8 == Offset(r, c, width)
  {
    assert r * width == 8 * (r * (width / 8));
  }

  lemma EvenOffset(y: nat, stride: nat, u: nat)
    requires stride % 2 == 0 && u % 2 == 0
    ensures (y * stride + u) % 2 == 0
  {
    assert y * stride == 2 * (y * (stride / 2));
  }

  /** Everything from byte `start` on is the same in both buffers. */
  predicate SameFrom(m: seq<Block>, m': seq<Block>, start: int) {
    |m| == |m'| && forall p: nat | start <= p < 16 * |m| :: ByteAt(m', p) == ByteAt(m, p)
  }

  /** One store of the `k` loop: output row `y` gets bytes `u` and `u + 1`, all other bytes stay. */
  method StoreColumn(out: array<Block>, rows: nat, cols: nat, i: nat, y: nat, word: seq<bv8>, ghost rb: nat,
                     ghost u: nat)
    requires rows == 8 * rb && rb % 16 == 0 && i == 8 * u && u % 2 == 0 && u + 1 < rb
    requires cols * rb <= 16 * out.Length && y < cols && |word| == 2
    modifies out
    ensures var v := old(Rows(out[..], cols, rb));
            Rows(out[..], cols, rb) == v[y := v[y][u := word[0]][u + 1 := word[1]]]
    ensures SameFrom(old(out[..]), out[..], cols * rb)
  {
    OffsetForm(y, i, rows);
    var address := y * rows / 8 + i / 8;
    AddressInRange(cols, rb, y, u + 1);
    EvenOffset(y, rb, u);
    ghost var m := out[..];
    Store16(out, address, word);
    StoredRows(m, out[..], cols, rb, y, u, word);
  }

  /** The byte of row `i + r` that tile (`i`, `j`) loads. */
  function LoadAddress(i: nat, j: nat, r: nat, cols: nat): nat
  {
    Offset(i + r, j, cols)
  }

  /** The byte loads that feed `_mm_set_epi8`. */
  function LoadTile(m: seq<Block>, rows: nat, cols: nat, i: nat, j: nat, ghost cb: nat): (b: seq<bv8>)
    requires cols == 8 * cb && rows * cb <= 16 * |m| && i + 16 <= rows && j < cols
    ensures |b| == 16
  {
    seq(16, r requires 0 <= r < 16 => AddressInRange(rows, cb, i + r, j / 8); ByteAt(m, LoadAddress(i, j, r, cols)))
  }

  /**
   Between stores of the `k` loop on the tile at row `i`, byte column `w`: the bytes of output rows
   `8w+k .. 8w+7` that the tile covers are done, every other byte is as it was.
   */
  predicate TileProgress(a: seq<seq<bv8>>, v0: seq<seq<bv8>>, v: seq<seq<bv8>>, rb: nat, cb: nat, u: nat, w: nat,
                         k: nat)
    requires Shape(a, 8 * rb, cb) && Shape(v0, 8 * cb, rb) && Shape(v, 8 * cb, rb)
  {
    forall y: nat, q: nat | y < 8 * cb && q < rb ::
      if 8 * w + k <= y < 8 * w + 8 && u <= q <= u + 1 then ByteDone(a, v, rb, cb, y, q) else v[y][q] == v0[y][q]
  }

  lemma StoredColumn(a: seq<seq<bv8>>, v: seq<seq<bv8>>, rb: nat, cb: nat, u: nat, w: nat, k: nat, h: nat,
                     word: seq<bv8>)
    requires Shape(a, 8 * rb, cb) && Shape(v, 8 * cb, rb)
    requires u + 1 < rb && w < cb && 1 <= k <= 8 && h < 2 && |word| == 2
    requires word == Simd.MovemaskEpi8(Simd.Shifted(Simd.SetEpi8(Gather(a, 8 * u, w)), 8 - k))
    requires v[8 * w + k - 1][u + h] == word[h]
    ensures ByteDone(a, v, rb, cb, 8 * w + k - 1, u + h)
  {
    var y, q := 8 * w + k - 1, u + h;
    forall m: nat | m < 8 ensures ByteBit(v[y][q], m) == At(a, 8 * q + m, y) {
      TileColumn(a, 8 * u, w, 8 - k, h, m, 8 * q + m, y);
    }
  }

  lemma TileStep(a: seq<seq<bv8>>, v0: seq<seq<bv8>>, v: seq<seq<bv8>>, v': seq<seq<bv8>>, rb: nat, cb: nat,
                 u: nat, w: nat, k: nat, word: seq<bv8>)
    requires Shape(a, 8 * rb, cb) && Shape(v0, 8 * cb, rb) && Shape(v, 8 * cb, rb)
    requires u + 1 < rb && w < cb && 1 <= k <= 8 && |word| == 2
    requires word == Simd.MovemaskEpi8(Simd.Shifted(Simd.SetEpi8(Gather(a, 8 * u, w)), 8 - k))
    requires var y := 8 * w + k - 1; v' == v[y := v[y][u := word[0]][u + 1 := word[1]]]
    requires TileProgress(a, v0, v, rb, cb, u, w, k)
    ensures Shape(v', 8 * cb, rb) && TileProgress(a, v0, v', rb, cb, u, w, k - 1)
  {
    StoredColumn(a, v', rb, cb, u, w, k, 0, word);
    StoredColumn(a, v', rb, cb, u, w, k, 1, word);
    forall y: nat, q: nat | y < 8 * cb && q < rb
      ensures if 8 * w + k - 1 <= y < 8 * w + 8 && u <= q <= u + 1 then ByteDone(a, v', rb, cb, y, q) else v'[y][q] == v0[y][q]
    {
      if 8 * w + k <= y < 8 * w + 8 && u <= q <= u + 1 {
        assert ByteDone(a, v, rb, cb, y, q);
        assert v'[y][q] == v[y][q];
      }
    }
  }

  lemma LoadedByte(rows: nat, cols: nat, i: nat, j: nat, r: nat, cb: nat, w: nat, x: nat)
    requires cols == 8 * cb && x == i + r && x < rows && j == 8 * w && w < cb
    ensures LoadAddress(i, j, r, cols) == x * cb + w < rows * cb
  {
    Eighth(cols, cb);
    Eighth(j, w);
    AddressInRange(rows, cb, x, w);
  }

  /** The loads gather byte column `w` of the rows `i .. i+15`. */
  lemma LoadTileGathers(m: seq<Block>, a: seq<seq<bv8>>, rows: nat, cols: nat, i: nat, j: nat, cb: nat, w: nat)
    requires cols == 8 * cb && rows * cb <= 16 * |m| && a == Rows(m, rows, cb)
    requires i + 16 <= rows && j == 8 * w && w < cb
    ensures LoadTile(m, rows, cols, i, j, cb) == Gather(a, i, w)
  {
    forall r | 0 <= r < 16 ensures LoadTile(m, rows, cols, i, j, cb)[r] == a[i + r][w] {
      LoadedByte(rows, cols, i, j, r, cb, w, i + r);
      assert a[i + r] == Row(m, rows, cb, i + r);
    }
  }

  /** The body of the `k` loop. */
  method StoreStep(out: array<Block>, rows: nat, cols: nat, i: nat, j: nat, data: Simd.Register, k: nat,
                   ghost a: seq<seq<bv8>>, ghost v0: seq<seq<bv8>>, ghost rb: nat, ghost cb: nat, ghost u: nat,
                   ghost w: nat)
    returns (next: Simd.Register)
    requires rows == 8 * rb && rb % 16 == 0 && cols == 8 * cb && cols * rb <= 16 * out.Length
    requires i == 8 * u && u % 2 == 0 && u + 1 < rb && j == 8 * w && w < cb
    requires Shape(a, rows, cb) && Shape(v0, cols, rb)
    requires 1 <= k <= 8 && data == Simd.Shifted(Simd.SetEpi8(Gather(a, i, w)), 8 - k)
    requires TileProgress(a, v0, Rows(out[..], cols, rb), rb, cb, u, w, k)
    modifies out
    ensures TileProgress(a, v0, Rows(out[..], cols, rb), rb, cb, u, w, k - 1)
    ensures SameFrom(old(out[..]), out[..], cols * rb)
    ensures next == Simd.Shifted(Simd.SetEpi8(Gather(a, i, w)), 8 - (k - 1))
  {
    ghost var v := Rows(out[..], cols, rb);
    Simd.ShiftedStep(Simd.SetEpi8(Gather(a, i, w)), 8 - k);
    next := Simd.SlliEpi64(data);
    var word := Simd.MovemaskEpi8(data);
    StoreColumn(out, rows, cols, i, j + k - 1, word, rb, u);
    TileStep(a, v0, v, Rows(out[..], cols, rb), rb, cb, u, w, k, word);
  }

  /** The `k` loop on the tile at row `i == 8u`, column `j == 8w`: movemask, store, shift, eight times. */
  method StoreTile(out: array<Block>, rows: nat, cols: nat, i: nat, j: nat, bytes: seq<bv8>,
                   ghost a: seq<seq<bv8>>, ghost rb: nat, ghost cb: nat, ghost u: nat, ghost w: nat)
    requires rows == 8 * rb && rb % 16 == 0 && cols == 8 * cb && cols * rb <= 16 * out.Length
    requires i == 8 * u && u % 2 == 0 && u + 1 < rb && j == 8 * w && w < cb
    requires Shape(a, rows, cb) && bytes == Gather(a, i, w)
    modifies out
    ensures TileProgress(a, old(Rows(out[..], cols, rb)), Rows(out[..], cols, rb), rb, cb, u, w, 0)
    ensures SameFrom(old(out[..]), out[..], cols * rb)
  {
    ghost var v0 := Rows(out[..], cols, rb);
    var data := Simd.SetEpi8(bytes);
    var k := 8;
    while k != 0
      invariant 0 <= k <= 8 && data == Simd.Shifted(Simd.SetEpi8(bytes), 8 - k)
      invariant TileProgress(a, v0, Rows(out[..], cols, rb), rb, cb, u, w, k)
      invariant SameFrom(old(out[..]), out[..], cols * rb)
    {
      data := StoreStep(out, rows, cols, i, j, data, k, a, v0, rb, cb, u, w);
      k := k - 1;
    }
  }

  // ---------- all tiles ----------

  /** Tiles above byte row `u` are stored, and in tile row `u` those left of byte column `w`. */
  predicate Progress(a: seq<seq<bv8>>, v: seq<seq<bv8>>, rb: nat, cb: nat, u: nat, w: nat)
    requires Shape(a, 8 * rb, cb) && Shape(v, 8 * cb, rb)
  {
    forall y: nat, q: nat | y < 8 * cb && q < rb && (q < u || (q < u + 2 && y < 8 * w)) :: ByteDone(a, v, rb, cb, y, q)
  }

  lemma TileStored(a: seq<seq<bv8>>, v: seq<seq<bv8>>, v': seq<seq<bv8>>, rb: nat, cb: nat, u: nat, w: nat)
    requires Shape(a, 8 * rb, cb) && Shape(v, 8 * cb, rb) && Shape(v', 8 * cb, rb)
    requires Progress(a, v, rb, cb, u, w) && TileProgress(a, v, v', rb, cb, u, w, 0)
    ensures Progress(a, v', rb, cb, u, w + 1)
  {
    forall y: nat, q: nat | y < 8 * cb && q < rb && (q < u || (q < u + 2 && y < 8 * (w + 1)))
      ensures ByteDone(a, v', rb, cb, y, q)
    {
      if !(8 * w <= y < 8 * w + 8 && u <= q <= u + 1) {
        assert ByteDone(a, v, rb, cb, y, q);
        assert v'[y][q] == v[y][q];
      }
    }
  }

  lemma AllStored(a: seq<seq<bv8>>, v: seq<seq<bv8>>, rb: nat, cb: nat)
    requires Shape(a, 8 * rb, cb) && Shape(v, 8 * cb, rb) && Progress(a, v, rb, cb, rb, 0)
    ensures IsTranspose(a, v, rb, cb)
  {
    forall x: nat, y: nat | x < 8 * rb && y < 8 * cb ensures At(v, y, x) == At(a, x, y) {
      assert ByteDone(a, v, rb, cb, y, x / 8);
      assert ByteBit(v[y][x / 8], x % 8) == At(a, 8 * (x / 8) + x % 8, y);
    }
  }

  /** The `j` loop: every tile of the 16 rows at `i == 8u`. */
  method StoreTileRow(input: array<Block>, out: array<Block>, rows: nat, cols: nat, i: nat,
                      ghost a: seq<seq<bv8>>, ghost rb: nat, ghost cb: nat, ghost u: nat)
    requires input != out && rows == 8 * rb && rb % 16 == 0 && cols == 8 * cb
    requires rows * cb <= 16 * input.Length && cols * rb <= 16 * out.Length && a == Rows(input[..], rows, cb)
    requires i == 8 * u && u % 2 == 0 && u + 1 < rb
    requires Progress(a, Rows(out[..], cols, rb), rb, cb, u, 0)
    modifies out
    ensures Progress(a, Rows(out[..], cols, rb), rb, cb, u + 2, 0)
    ensures SameFrom(old(out[..]), out[..], cols * rb)
  {
    var j := 0;
    ghost var w := 0;
    while j < cols
      invariant j == 8 * w && w <= cb
      invariant Progress(a, Rows(out[..], cols, rb), rb, cb, u, w)
      invariant SameFrom(old(out[..]), out[..], cols * rb)
    {
      ghost var v := Rows(out[..], cols, rb);
      var bytes := LoadTile(input[..], rows, cols, i, j, cb);
      LoadTileGathers(input[..], a, rows, cols, i, j, cb, w);
      StoreTile(out, rows, cols, i, j, bytes, a, rb, cb, u, w);
      TileStored(a, v, Rows(out[..], cols, rb), rb, cb, u, w);
      j, w := j + 8, w + 1;
    }
    RowComplete(a, Rows(out[..], cols, rb), rb, cb, u);
  }

  lemma RowComplete(a: seq<seq<bv8>>, v: seq<seq<bv8>>, rb: nat, cb: nat, u: nat)
    requires Shape(a, 8 * rb, cb) && Shape(v, 8 * cb, rb) && Progress(a, v, rb, cb, u, cb)
    ensures Progress(a, v, rb, cb, u + 2, 0)
  {
  }

  /** The `i` loop: all rows, 16 at a time. */
  method StoreTiles(input: array<Block>, out: array<Block>, rows: nat, cols: nat,
                    ghost a: seq<seq<bv8>>, ghost rb: nat, ghost cb: nat)
    requires input != out && rows == 8 * rb && rb % 16 == 0 && cols == 8 * cb
    requires rows * cb <= 16 * input.Length && cols * rb <= 16 * out.Length && a == Rows(input[..], rows, cb)
    modifies out
    ensures IsTranspose(a, Rows(out[..], cols, rb), rb, cb)
    ensures SameFrom(old(out[..]), out[..], cols * rb)
  {
    var i := 0;
    ghost var t, end := 0, rb / 16;
    while i < rows
      invariant i == 16 * t && t <= 8 * end && rb == 16 * end
      invariant Progress(a, Rows(out[..], cols, rb), rb, cb, 2 * t, 0)
      invariant SameFrom(old(out[..]), out[..], cols * rb)
    {
      StoreTileRow(input, out, rows, cols, i, a, rb, cb, 2 * t);
      i, t := i + 16, t + 1;
    }
    AllStored(a, Rows(out[..], cols, rb), rb, cb);
  }

  lemma Eighth(n: nat, k: nat)
    requires n == 8 * k
    ensures n / 8 == k && n % 8 == 0
  {
  }

  lemma WholeTiles(n: nat)
    requires n % 128 == 0
    ensures n == 8 * (n / 8) && n / 8 % 16 == 0
  {
    Eighth(n, 16 * (n / 128));
  }

  /** The `cols` by `rows` bits of `m'` are the transpose of the `rows` by `cols` bits of `m`. */
  predicate Transposed(m: seq<Block>, m': seq<Block>, rows: nat, cols: nat)
    requires rows % 128 == 0 && cols % 128 == 0
    requires rows * (cols / 8) <= 16 * |m| && cols * (rows / 8) <= 16 * |m'|
  {
    WholeTiles(rows);
    WholeTiles(cols);
    IsTranspose(Rows(m, rows, cols / 8), Rows(m', cols, rows / 8), rows / 8, cols / 8)
  }

  /**
   Transposes the `rows` by `cols` bits at the front of `input` into the front of `out`. Nothing of the
   earlier contents of `out` survives in the `cols * rows` bits written, and nothing past them changes.
   */
  method MatrixTranspose(input: array<Block>, rows: nat, cols: nat, out: array<Block>) returns (status: Status)
    requires input != out
    requires rows % 128 == 0 && cols % 128 == 0 ==>
      rows * (cols / 8) <= 16 * input.Length && cols * (rows / 8) <= 16 * out.Length
    modifies out
    ensures rows % 128 != 0 || cols % 128 != 0 ==>
      status == InvalidArgument("Transpose size is not supported.") && out[..] == old(out[..])
    ensures rows % 128 == 0 && cols % 128 == 0 ==>
      && status == Ok
      && Transposed(input[..], out[..], rows, cols)
      && SameFrom(old(out[..]), out[..], cols * (rows / 8))
  {
    if rows % 128 != 0 || cols % 128 != 0 {
      return InvalidArgument("Transpose size is not supported.");
    }
    WholeTiles(rows);
    WholeTiles(cols);
    StoreTiles(input, out, rows, cols, Rows(input[..], rows, cols / 8), rows / 8, cols / 8);
    return Ok;
  }

  // ---------- consequences ----------

  /** Two transposes of the same matrix agree, whatever the output buffers held before. */
  lemma TransposeUnique(a: seq<seq<bv8>>, b: seq<seq<bv8>>, b': seq<seq<bv8>>, rb: nat, cb: nat)
    requires Shape(a, 8 * rb, cb) && Shape(b, 8 * cb, rb) && Shape(b', 8 * cb, rb)
    requires IsTranspose(a, b, rb, cb) && IsTranspose(a, b', rb, cb)
    ensures b == b'
  {
    forall y | 0 <= y < 8 * cb ensures b[y] == b'[y] {
      forall q | 0 <= q < rb ensures b[y][q] == b'[y][q] {
        forall m: nat | m < 8 ensures ByteBit(b[y][q], m) == ByteBit(b'[y][q], m) {
          var x := 8 * q + m;
          assert x / 8 == q && x % 8 == m;
          assert At(b, y, x) == At(a, x, y) == At(b', y, x);
        }
        BytesEqual(b[y][q], b'[y][q]);
      }
    }
  }

  /** Transposing back restores the matrix. */
  lemma TransposeInvolutive(a: seq<seq<bv8>>, b: seq<seq<bv8>>, c: seq<seq<bv8>>, rb: nat, cb: nat)
    requires Shape(a, 8 * rb, cb) && Shape(b, 8 * cb, rb) && Shape(c, 8 * rb, cb)
    requires IsTranspose(a, b, rb, cb) && IsTranspose(b, c, cb, rb)
    ensures c == a
  {
    forall y: nat, x: nat | y < 8 * cb && x < 8 * rb ensures At(a, x, y) == At(b, y, x) {
    }
    assert IsTranspose(b, a, cb, rb);
    TransposeUnique(b, a, c, cb, rb);
  }

  lemma SameRowsSameBytes(m: seq<Block>, m': seq<Block>, n: nat, stride: nat, p: nat)
    requires n * stride <= 16 * |m| && n * stride <= 16 * |m'| && p < n * stride
    requires Rows(m, n, stride) == Rows(m', n, stride)
    ensures ByteAt(m, p) == ByteAt(m', p)
  {
    var r, q := SplitAddress(n, stride, p);
    assert Rows(m, n, stride)[r][q] == ByteAt(m, p);
    assert Rows(m', n, stride)[r][q] == ByteAt(m', p);
  }

  /** Transposing into `mid` and back into `out` rebuilds the matrix byte for byte. */
  method TransposeTwice(input: array<Block>, rows: nat, cols: nat, mid: array<Block>, out: array<Block>)
    requires input != mid && mid != out && input != out && rows % 128 == 0 && cols % 128 == 0
    requires rows * (cols / 8) <= 16 * input.Length && cols * (rows / 8) <= 16 * mid.Length
    requires rows * (cols / 8) <= 16 * out.Length
    modifies mid, out
    ensures forall p: nat | p < rows * (cols / 8) :: ByteAt(out[..], p) == ByteAt(input[..], p)
  {
    var _ := MatrixTranspose(input, rows, cols, mid);
    var _ := MatrixTranspose(mid, cols, rows, out);
    WholeTiles(rows);
    WholeTiles(cols);
    TransposeInvolutive(Rows(input[..], rows, cols / 8), Rows(mid[..], cols, rows / 8), Rows(out[..], rows, cols / 8),
                        rows / 8, cols / 8);
    forall p: nat | p < rows * (cols / 8) ensures ByteAt(out[..], p) == ByteAt(input[..], p) {
      SameRowsSameBytes(out[..], input[..], rows, cols / 8, p);
    }
  }

  // ---------- which bytes the loops touch ----------

  /** Pass `b` of the `i` loop and pass `w` of the `j` loop: the tile at row `16b`, column `8w`. */
  predicate Tile(rows: nat, cols: nat, b: nat, w: nat) {
    16 * b < rows && 8 * w < cols
  }

  /** Iteration `k` on a tile writes the two bytes from here on. */
  function StoreAddress(i: nat, j: nat, k: nat, rows: nat): nat
    requires 1 <= k
  {
    Offset(j + k - 1, i, rows)
  }

  /** Iteration `k` of passes `b` and `w` writes output byte `p`. */
  predicate Writes(rows: nat, cols: nat, b: nat, w: nat, k: nat, p: nat)
  {
    && Tile(rows, cols, b, w) && 1 <= k <= 8
    && (var first := StoreAddress(16 * b, 8 * w, k, rows); p == first || p == first + 1)
  }

  lemma TileStore(rows: nat, rb: nat, b: nat, w: nat, k: nat, y: nat)
    requires rows == 8 * rb && 1 <= k <= 8 && y == 8 * w + k - 1
    ensures StoreAddress(16 * b, 8 * w, k, rows) == y * rb + 2 * b
  {
    Eighth(rows, rb);
    Eighth(16 * b, 2 * b);
  }

  lemma TileLoad(cols: nat, cb: nat, b: nat, w: nat, r: nat, x: nat)
    requires cols == 8 * cb && x == 16 * b + r
    ensures LoadAddress(16 * b, 8 * w, r, cols) == x * cb + w
  {
    Eighth(cols, cb);
    Eighth(8 * w, w);
  }

  /** The iteration that writes byte `q` of output row `y`, and no other, is named by `q / 2` and `y`. */
  lemma WriterIff(rows: nat, cols: nat, rb: nat, y: nat, q: nat, b: nat, w: nat, k: nat)
    requires rows == 8 * rb && rb % 2 == 0 && y < cols && q < rb && 1 <= k <= 8
    ensures Writes(rows, cols, b, w, k, y * rb + q) <==> 2 * b <= q <= 2 * b + 1 && y == 8 * w + k - 1
  {
    var row := 8 * w + k - 1;
    TileStore(rows, rb, b, w, k, row);
    if 16 * b < rows {
      SameStore(rb, y, q, row, 2 * b);
    }
  }

  lemma SameStore(rb: nat, y: nat, q: nat, row: nat, u: nat)
    requires q < rb && u + 1 < rb
    ensures y * rb + q == row * rb + u || y * rb + q == row * rb + u + 1 <==> y == row && u <= q <= u + 1
  {
    if y != row {
      AddressDistinct(rb, y, q, row, u);
      AddressDistinct(rb, y, q, row, u + 1);
    }
  }

  /** The iterations of the three loops partition the output: each of its bytes is written by exactly one. */
  lemma StoresPartition(rows: nat, cols: nat, p: nat) returns (b: nat, w: nat, k: nat)
    requires rows % 128 == 0 && cols % 128 == 0 && p < cols * (rows / 8)
    ensures Writes(rows, cols, b, w, k, p)
    ensures forall b': nat, w': nat, k': nat | Writes(rows, cols, b', w', k', p) :: b' == b && w' == w && k' == k
  {
    WholeTiles(rows);
    var y, q := SplitAddress(cols, rows / 8, p);
    b, w, k := q / 2, y / 8, y % 8 + 1;
    WriterIff(rows, cols, rows / 8, y, q, b, w, k);
    forall b': nat, w': nat, k': nat | Writes(rows, cols, b', w', k', p) ensures b' == b && w' == w && k' == k {
      WriterIff(rows, cols, rows / 8, y, q, b', w', k');
    }
  }

  /** All byte loads stay below `size`. */
  ghost predicate LoadsBelow(rows: nat, cols: nat, size: nat)
  {
    forall b: nat, w: nat, r: nat | Tile(rows, cols, b, w) && r < 16 :: LoadAddress(16 * b, 8 * w, r, cols) < size
  }

  /** Both bytes of all stores stay below `size`. */
  ghost predicate StoresBelow(rows: nat, cols: nat, size: nat)
  {
    forall b: nat, w: nat, k: nat | Tile(rows, cols, b, w) && 1 <= k <= 8 ::
      StoreAddress(16 * b, 8 * w, k, rows) + 1 < size
  }

  lemma LoadsInside(rows: nat, cols: nat, c: nat, cb: nat, size: nat)
    requires rows == 128 * c && cols == 8 * cb && rows * cb <= size
    ensures LoadsBelow(rows, cols, size)
  {
    forall b: nat, w: nat, r: nat | Tile(rows, cols, b, w) && r < 16
      ensures LoadAddress(16 * b, 8 * w, r, cols) < size
    {
      var x := 16 * b + r;
      TileLoad(cols, cb, b, w, r, x);
      assert x < 128 * c;
      AddressInRange(rows, cb, x, w);
    }
  }

  lemma LastLoad(rows: nat, cols: nat, c: nat, cb: nat, size: nat)
    requires rows == 128 * c && cols == 8 * cb && rows * cb > 0 && LoadsBelow(rows, cols, size)
    ensures rows * cb <= size
  {
    LastAddress(rows, cb);
    TileLoad(cols, cb, 8 * c - 1, cb - 1, 15, rows - 1);
    assert Tile(rows, cols, 8 * c - 1, cb - 1);
  }

  /** The size the loads need is exactly the matrix. */
  lemma LoadsBelowIff(rows: nat, cols: nat, size: nat)
    requires rows % 128 == 0 && cols % 128 == 0
    ensures LoadsBelow(rows, cols, size) <==> rows * (cols / 8) <= size
  {
    WholeTiles(cols);
    if rows * (cols / 8) <= size {
      LoadsInside(rows, cols, rows / 128, cols / 8, size);
    } else if LoadsBelow(rows, cols, size) {
      LastLoad(rows, cols, rows / 128, cols / 8, size);
    }
  }

  lemma StoresInside(rows: nat, cols: nat, c: nat, cb: nat, rb: nat, size: nat)
    requires rows == 128 * c && rb == 16 * c && cols == 8 * cb && cols * rb <= size
    ensures StoresBelow(rows, cols, size)
  {
    forall b: nat, w: nat, k: nat | Tile(rows, cols, b, w) && 1 <= k <= 8
      ensures StoreAddress(16 * b, 8 * w, k, rows) + 1 < size
    {
      StoreInside(rows, cols, c, rb, b, w, k, 8 * w + k - 1);
    }
  }

  lemma StoreInside(rows: nat, cols: nat, c: nat, rb: nat, b: nat, w: nat, k: nat, y: nat)
    requires rows == 128 * c && rb == 16 * c && Tile(rows, cols, b, w) && 1 <= k <= 8 && y == 8 * w + k - 1 && y < cols
    ensures StoreAddress(16 * b, 8 * w, k, rows) + 1 < cols * rb
  {
    TileStore(rows, rb, b, w, k, y);
    AddressInRange(cols, rb, y, 2 * b + 1);
  }

  lemma LastStore(rows: nat, cols: nat, c: nat, cb: nat, rb: nat, size: nat)
    requires rows == 128 * c && rb == 16 * c && cols == 8 * cb && cols * rb > 0 && StoresBelow(rows, cols, size)
    ensures cols * rb <= size
  {
    LastAddress(cols, rb);
    TileStore(rows, rb, 8 * c - 1, cb - 1, 8, cols - 1);
    assert Tile(rows, cols, 8 * c - 1, cb - 1);
  }

  /** The size the stores need is exactly the transposed matrix. */
  lemma StoresBelowIff(rows: nat, cols: nat, size: nat)
    requires rows % 128 == 0 && cols % 128 == 0
    ensures StoresBelow(rows, cols, size) <==> cols * (rows / 8) <= size
  {
    WholeTiles(rows);
    WholeTiles(cols);
    Eighth(rows, 16 * (rows / 128));
    if cols * (rows / 8) <= size {
      StoresInside(rows, cols, rows / 128, cols / 8, rows / 8, size);
    } else if StoresBelow(rows, cols, size) {
      LastStore(rows, cols, rows / 128, cols / 8, rows / 8, size);
    }
  }
}
