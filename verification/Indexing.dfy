/**
 Row-major indexing: element `q` of row `r` lives at `r * stride + q`. All multiplication of unknowns
 is confined to this module.
 */
module Indexing {

  lemma AddressInRange(n: nat, stride: nat, r: nat, q: nat)
    requires r < n && q < stride
    ensures 0 <= r * stride + q < n * stride
  {
    assert (r + 1) * stride <= n * stride;
  }

  lemma LastAddress(n: nat, stride: nat)
    requires n * stride > 0
    ensures n > 0 && stride > 0 && (n - 1) * stride + (stride - 1) == n * stride - 1
  {
  }

  lemma AddressInjective(stride: nat, r: nat, q: nat, r': nat, q': nat)
    requires q < stride && q' < stride && r * stride + q == r' * stride + q'
    ensures r == r' && q == q'
  {
    assert r == r' by {
      if r != r' {
        AddressDistinct(stride, r, q, r', q');
      }
    }
  }

  lemma AddressDistinct(stride: nat, r: nat, q: nat, r': nat, q': nat)
    requires q < stride && q' < stride && r != r'
    ensures r * stride + q != r' * stride + q'
  {
    var lo, hi := if r < r' then r else r', if r < r' then r' else r;
    assert (lo + 1) * stride <= hi * stride;
  }

  lemma ScaledOrder(a: nat, b: nat, k: nat)
    ensures a <= b ==> a * k <= b * k
  {
  }

  lemma SplitAddress(n: nat, stride: nat, p: nat) returns (r: nat, q: nat)
    requires p < n * stride
    ensures r < n && q < stride && p == r * stride + q
  {
    assert stride > 0;
    r, q := p / stride, p % stride;
    assert p == r * stride + q;
    ScaledOrder(n, r, stride);
  }

  predicate Dims<T>(m: seq<seq<T>>, rows: nat, cols: nat) {
    |m| == rows && forall i | 0 <= i < rows :: |m[i]| == cols
  }

  /** The rows of a flat vector. */
  function RowsOf<T>(v: seq<T>, rows: nat, cols: nat): (m: seq<seq<T>>)
    requires rows * cols <= |v|
    ensures Dims(m, rows, cols)
  {
    seq(rows, i requires 0 <= i < rows => RowOf(v, rows, cols, i))
  }

  function RowOf<T>(v: seq<T>, rows: nat, cols: nat, i: nat): (w: seq<T>)
    requires rows * cols <= |v| && i < rows
    ensures |w| == cols
  {
    seq(cols, j requires 0 <= j < cols => AddressInRange(rows, cols, i, j); v[i * cols + j])
  }

  /** The flat vector that stores the rows one after the other. */
  function RowMajor<T>(m: seq<seq<T>>, rows: nat, cols: nat): (v: seq<T>)
    requires Dims(m, rows, cols)
    ensures |v| == rows * cols
  {
    seq(rows * cols, x requires 0 <= x < rows * cols => RowMajorAt(m, rows, cols, x))
  }

  function RowMajorAt<T>(m: seq<seq<T>>, rows: nat, cols: nat, x: nat): T
    requires Dims(m, rows, cols) && x < rows * cols
  {
    SplitBounds(rows, cols, x);
    m[x / cols][x % cols]
  }

  lemma SplitBounds(n: nat, stride: nat, x: nat)
    requires x < n * stride
    ensures stride > 0 && x / stride < n && x % stride < stride && x == x / stride * stride + x % stride
  {
  }

  /** Entry `j` of row `i` is element `i * cols + j`. */
  lemma RowsOfEntry<T>(v: seq<T>, rows: nat, cols: nat, i: nat, j: nat)
    requires rows * cols <= |v| && i < rows && j < cols
    ensures i * cols + j < rows * cols && RowsOf(v, rows, cols)[i][j] == v[i * cols + j]
  {
    AddressInRange(rows, cols, i, j);
  }

  /** A flat vector is determined by its rows. */
  lemma RowMajorOfRows<T>(v: seq<T>, rows: nat, cols: nat)
    requires |v| == rows * cols
    ensures RowMajor(RowsOf(v, rows, cols), rows, cols) == v
  {
    var m := RowsOf(v, rows, cols);
    forall x | 0 <= x < |v| ensures RowMajorAt(m, rows, cols, x) == v[x] {
      SplitBounds(rows, cols, x);
      assert m[x / cols][x % cols] == v[x / cols * cols + x % cols];
    }
  }

  lemma RowsOfRowMajor<T>(m: seq<seq<T>>, rows: nat, cols: nat)
    requires Dims(m, rows, cols)
    ensures RowsOf(RowMajor(m, rows, cols), rows, cols) == m
  {
    var v := RowMajor(m, rows, cols);
    forall i | 0 <= i < rows ensures RowOf(v, rows, cols, i) == m[i] {
      forall j | 0 <= j < cols ensures RowOf(v, rows, cols, i)[j] == m[i][j] {
        AddressInRange(rows, cols, i, j);
        SplitBounds(rows, cols, i * cols + j);
        AddressInjective(cols, i, j, (i * cols + j) / cols, (i * cols + j) % cols);
      }
    }
  }

  lemma RowMajorEntry<T>(m: seq<seq<T>>, rows: nat, cols: nat, i: nat, j: nat)
    requires Dims(m, rows, cols) && i < rows && j < cols
    ensures i * cols + j < rows * cols && RowMajor(m, rows, cols)[i * cols + j] == m[i][j]
  {
    RowsOfRowMajor(m, rows, cols);
    RowsOfEntry(RowMajor(m, rows, cols), rows, cols, i, j);
  }

  lemma RowMajorAppend<T>(m: seq<seq<T>>, row: seq<T>, rows: nat, cols: nat)
    requires Dims(m, rows, cols) && |row| == cols
    ensures RowMajor(m + [row], rows + 1, cols) == RowMajor(m, rows, cols) + row
  {
    var v, v' := RowMajor(m, rows, cols), RowMajor(m + [row], rows + 1, cols);
    assert |v'| == |v| + cols;
    forall x | 0 <= x < |v'| ensures v'[x] == (v + row)[x] {
      SplitBounds(rows + 1, cols, x);
      if x < rows * cols {
        SplitBounds(rows, cols, x);
      } else {
        AddressInjective(cols, rows, x - rows * cols, x / cols, x % cols);
      }
    }
  }

  /** All of the parts, one after the other. */
  function Concat<T>(parts: seq<seq<T>>): seq<T> {
    if parts == [] then [] else parts[0] + Concat(parts[1..])
  }

  lemma {:induction false} ConcatAppend<T>(parts: seq<seq<T>>, part: seq<T>)
    ensures Concat(parts + [part]) == Concat(parts) + part
  {
    if parts == [] {
      assert ([] + [part])[1..] == [];
    } else {
      ConcatAppend(parts[1..], part);
      assert (parts + [part])[1..] == parts[1..] + [part];
    }
  }

  lemma TakeNext<T>(s: seq<T>, k: nat)
    requires k < |s|
    ensures s[..k] + [s[k]] == s[..k + 1]
  {
  }

  /** Appending part `j` to the parts `i .. j-1`. */
  lemma ConcatGrows<T>(parts: seq<seq<T>>, i: nat, j: nat)
    requires i <= j < |parts|
    ensures Concat(parts[i..j + 1]) == Concat(parts[i..j]) + parts[j]
  {
    ConcatAppend(parts[i..j], parts[j]);
    assert parts[i..j] + [parts[j]] == parts[i..j + 1];
  }

  /** Taking part `i` off the parts `i .. j-1`. */
  lemma ConcatShrinks<T>(parts: seq<seq<T>>, i: nat, j: nat)
    requires i < j <= |parts|
    ensures Concat(parts[i..j]) == parts[i] + Concat(parts[i + 1..j])
  {
  }
}
