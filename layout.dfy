/**
 * The factor-matrix store's reconstruction step.
 *
 * The engine hands back, per feature column, a jblas FloatMatrix whose `toArray()` is one
 * flat buffer written column after column. `_float_matrix2numpy` cuts that buffer into
 * `rows`-sized chunks and column-stacks them; `_fit` then transposes the result, so that
 * factor row j is the j-th chunk of the buffer.
 */
module Layout {

  /** A FloatMatrix: its shape and its flat column-major buffer. */
  datatype FlatMatrix = FlatMatrix(rows: nat, columns: nat, data: seq<real>)

  /** A non-empty buffer of the declared shape (NumPy refuses a zero step or an empty stack). */
  ghost predicate ValidBuffer(m: FlatMatrix) {
    m.rows > 0 && m.columns > 0 && |m.data| == m.rows * m.columns
  }

  ghost predicate Rectangular(M: seq<seq<real>>, width: nat) {
    forall i :: 0 <= i < |M| ==> |M[i]| == width
  }

  /** `[lst[i:i+sz] for i in range(0, len(lst), sz)]`: the last chunk may be short. */
  function Chunks(s: seq<real>, size: nat): (r: seq<seq<real>>)
    requires size > 0
    ensures (|r| == 0) == (|s| == 0)
    ensures forall i :: 0 <= i < |r| ==> 0 < |r[i]| <= size
    ensures forall i :: 0 <= i < |r| - 1 ==> |r[i]| == size
    decreases |s|
  {
    if |s| == 0 then []
    else if |s| <= size then [s]
    else [s[..size]] + Chunks(s[size..], size)
  }

  /** `numpy.ma.column_stack(cols)` for equally long 1-D columns: column c of the result is cols[c]. */
  function ColumnStack(cols: seq<seq<real>>, height: nat): (r: seq<seq<real>>)
    requires Rectangular(cols, height)
    ensures |r| == height && Rectangular(r, |cols|)
  {
    seq(height, r requires 0 <= r < height => seq(|cols|, c requires 0 <= c < |cols| => cols[c][r]))
  }

  /** `M.transpose()` of a matrix with `width` columns. */
  function Transpose(M: seq<seq<real>>, width: nat): (r: seq<seq<real>>)
    requires Rectangular(M, width)
    ensures |r| == width && Rectangular(r, |M|)
  {
    seq(width, j requires 0 <= j < width => seq(|M|, i requires 0 <= i < |M| => M[i][j]))
  }

  lemma MulStep(a: nat, b: nat)
    ensures (a + 1) * b == a * b + b
  {
  }

  lemma MulMonotone(a: nat, b: nat, k: nat)
    requires a <= b
    ensures a * k <= b * k
  {
  }

  lemma {:induction false} ChunksLength(s: seq<real>, size: nat, count: nat)
    requires size > 0 && |s| == size * count
    ensures |Chunks(s, size)| == count
    decreases count
  {
    if count > 1 {
      MulStep(count - 1, size);
      ChunksLength(s[size..], size, count - 1);
    }
  }

  /** Chunk c of a buffer of `count` whole chunks is the slice [c * size, (c + 1) * size). */
  lemma {:induction false} ChunkAt(s: seq<real>, size: nat, count: nat, c: nat)
    requires size > 0 && |s| == size * count && c < count
    ensures (c + 1) * size <= |s|
    ensures |Chunks(s, size)| == count
    ensures Chunks(s, size)[c] == s[c * size..(c + 1) * size]
    decreases c
  {
    ChunksLength(s, size, count);
    MulMonotone(c + 1, count, size);
    if c == 0 {
      if count == 1 {
        assert s[0..size] == s;
      }
    } else {
      MulStep(count - 1, size);
      MulStep(c - 1, size);
      MulStep(c, size);
      var t := s[size..];
      ChunkAt(t, size, count - 1, c - 1);
      var lo, a, b := (c - 1) * size, c * size, (c + 1) * size;
      assert lo + size == a && a + size == b;
      var x, y := t[lo..lo + size], s[a..b];
      assert |x| == size == |y|;
      forall i | 0 <= i < size
        ensures x[i] == y[i]
      {
        assert x[i] == t[lo + i] == s[size + lo + i];
      }
      assert x == y;
    }
  }

  /** A buffer of `count` whole chunks is cut into exactly those chunks. */
  lemma ChunksShape(s: seq<real>, size: nat, count: nat)
    requires size > 0 && |s| == size * count
    ensures |Chunks(s, size)| == count
    ensures forall c :: 0 <= c < count ==>
              (c + 1) * size <= |s| && Chunks(s, size)[c] == s[c * size..(c + 1) * size]
    ensures Rectangular(Chunks(s, size), size)
  {
    ChunksLength(s, size, count);
    forall c | 0 <= c < count
      ensures (c + 1) * size <= |s| && Chunks(s, size)[c] == s[c * size..(c + 1) * size]
    {
      ChunkAt(s, size, count, c);
    }
  }

  /** `_float_matrix2numpy`: a rows x columns matrix read from the column-major buffer. */
  function ToNumpy(m: FlatMatrix): (r: seq<seq<real>>)
    requires ValidBuffer(m)
    ensures |r| == m.rows && Rectangular(r, m.columns)
  {
    ChunksShape(m.data, m.rows, m.columns);
    ColumnStack(Chunks(m.data, m.rows), m.rows)
  }

  /** `_float_matrix2numpy` yields a rows x columns matrix whose cell (r, c) is buffer entry c * rows + r. */
  lemma ToNumpyCell(m: FlatMatrix, r: nat, c: nat)
    requires ValidBuffer(m) && r < m.rows && c < m.columns
    ensures |ToNumpy(m)| == m.rows && |ToNumpy(m)[r]| == m.columns
    ensures c * m.rows + r < |m.data| && ToNumpy(m)[r][c] == m.data[c * m.rows + r]
  {
    ChunksLength(m.data, m.rows, m.columns);
    ChunkAt(m.data, m.rows, m.columns, c);
    MulStep(c, m.rows);
  }

  /** Stacking columns and transposing gives the columns back. */
  lemma TransposeColumnStack(cols: seq<seq<real>>, height: nat)
    requires Rectangular(cols, height)
    ensures Rectangular(ColumnStack(cols, height), |cols|)
    ensures Transpose(ColumnStack(cols, height), |cols|) == cols
  {
    var T := Transpose(ColumnStack(cols, height), |cols|);
    assert |T| == |cols|;
    forall j | 0 <= j < |cols|
      ensures T[j] == cols[j]
    {
    }
  }

  /** The factor rows `_fit` stores: the transpose of the reconstructed matrix. */
  function FactorRows(m: FlatMatrix): (r: seq<seq<real>>)
    requires ValidBuffer(m)
    ensures |r| == m.columns && Rectangular(r, m.rows)
  {
    ChunksLength(m.data, m.rows, m.columns);
    Transpose(ToNumpy(m), m.columns)
  }

  /**
   * Factor row j is the buffer slice [j * rows, (j + 1) * rows): one row per column of the
   * engine's matrix, each `rows` long.
   */
  lemma FactorRowsAreChunks(m: FlatMatrix)
    requires ValidBuffer(m)
    ensures FactorRows(m) == Chunks(m.data, m.rows)
    ensures |FactorRows(m)| == m.columns && Rectangular(FactorRows(m), m.rows)
    ensures forall j :: 0 <= j < m.columns ==>
              (j + 1) * m.rows <= |m.data| && FactorRows(m)[j] == m.data[j * m.rows..(j + 1) * m.rows]
  {
    ChunksShape(m.data, m.rows, m.columns);
    TransposeColumnStack(Chunks(m.data, m.rows), m.rows);
  }
}
