/**
 * Index arithmetic of the two matrix layouts the code moves data between:
 * the row-major order in which the imaging library delivers pixels, and the
 * column-major order in which the host numerical environment stores arrays.
 */
module Layout {

  lemma MulMonotone(a: nat, b: nat, c: nat)
    requires a <= b
    ensures a * c <= b * c
  {
  }

  /** Linear offset of the entry at row i, column j of a column-major rows x cols matrix. */
  function ColMajor(i: nat, j: nat, rows: nat, cols: nat): (o: nat)
    requires i < rows && j < cols
    ensures o < cols * rows
  {
    MulMonotone(j + 1, cols, rows);
    j * rows + i
  }

  /** Linear offset of the entry at row i, column j of a row-major rows x cols matrix. */
  function RowMajor(i: nat, j: nat, rows: nat, cols: nat): (o: nat)
    requires i < rows && j < cols
    ensures o < cols * rows
  {
    MulMonotone(i + 1, rows, cols);
    i * cols + j
  }

  /** Two entries of a column-major matrix share an offset only if they are the same entry. */
  lemma ColMajorInjective(i1: nat, j1: nat, i2: nat, j2: nat, rows: nat, cols: nat)
    requires i1 < rows && j1 < cols && i2 < rows && j2 < cols
    requires ColMajor(i1, j1, rows, cols) == ColMajor(i2, j2, rows, cols)
    ensures i1 == i2 && j1 == j2
  {
    if j1 < j2 {
      MulMonotone(j1 + 1, j2, rows);
    } else if j2 < j1 {
      MulMonotone(j2 + 1, j1, rows);
    }
  }

  /** Every entry other than (i, j) has an offset other than that of (i, j). */
  lemma ColMajorOthers(i: nat, j: nat, rows: nat, cols: nat)
    requires i < rows && j < cols
    ensures forall i2: nat, j2: nat :: i2 < rows && j2 < cols && (i2 != i || j2 != j) ==>
      ColMajor(i2, j2, rows, cols) != ColMajor(i, j, rows, cols)
  {
    forall i2: nat, j2: nat | i2 < rows && j2 < cols && ColMajor(i2, j2, rows, cols) == ColMajor(i, j, rows, cols)
      ensures i2 == i && j2 == j
    {
      ColMajorInjective(i2, j2, i, j, rows, cols);
    }
  }

  /** Every offset of a column-major matrix is the offset of some entry of it. */
  lemma ColMajorEntry(o: nat, rows: nat, cols: nat) returns (i: nat, j: nat)
    requires o < cols * rows
    ensures i < rows && j < cols && ColMajor(i, j, rows, cols) == o
  {
    assert rows > 0;
    i, j := o % rows, o / rows;
    if cols <= j {
      MulMonotone(cols, j, rows);
    }
  }

  /** The set of offsets that the entries of a column-major rows x cols matrix occupy. */
  function ColMajorImage(rows: nat, cols: nat): set<nat> {
    set i: nat, j: nat | i < rows && j < cols :: ColMajor(i, j, rows, cols)
  }

  /**
   * The column-major layout is a bijection from the rows x cols grid onto the
   * offsets [0, rows * cols): a loop that stores every entry of the grid once
   * stores every offset of the buffer exactly once and nothing outside it.
   */
  lemma ColMajorBijective(rows: nat, cols: nat)
    ensures forall i1: nat, j1: nat, i2: nat, j2: nat ::
      (i1 < rows && j1 < cols && i2 < rows && j2 < cols &&
       ColMajor(i1, j1, rows, cols) == ColMajor(i2, j2, rows, cols)) ==> i1 == i2 && j1 == j2
    ensures forall o: nat :: o in ColMajorImage(rows, cols) <==> o < cols * rows
  {
    forall i1: nat, j1: nat, i2: nat, j2: nat |
      i1 < rows && j1 < cols && i2 < rows && j2 < cols &&
      ColMajor(i1, j1, rows, cols) == ColMajor(i2, j2, rows, cols)
      ensures i1 == i2 && j1 == j2
    {
      ColMajorInjective(i1, j1, i2, j2, rows, cols);
    }
    var image := ColMajorImage(rows, cols);
    forall o: nat | o < cols * rows
      ensures o in image
    {
      var i, j := ColMajorEntry(o, rows, cols);
      assert ColMajor(i, j, rows, cols) in image;
    }
  }

  /** A two-dimensional host array: its extents and its entries in column-major order. */
  datatype Matrix<T> = Matrix(rows: nat, cols: nat, data: seq<T>) {

    predicate Valid() {
      |data| == cols * rows
    }

    /** The entry at row i, column j, as the host's subscript m(i+1, j+1) reads it. */
    function At(i: nat, j: nat): T
      requires Valid() && i < rows && j < cols
    {
      data[ColMajor(i, j, rows, cols)]
    }
  }

  /**
   * A valid matrix is determined by its shape and its entries: two matrices
   * that agree at every (i, j) hold the same data, so a loop that sets every
   * entry leaves no byte of the buffer unspecified.
   */
  lemma MatrixExtensional<T>(a: Matrix<T>, b: Matrix<T>)
    requires a.Valid() && b.Valid() && a.rows == b.rows && a.cols == b.cols
    requires forall i: nat, j: nat :: i < a.rows && j < a.cols ==> a.At(i, j) == b.At(i, j)
    ensures a == b
  {
    forall o | 0 <= o < |a.data|
      ensures a.data[o] == b.data[o]
    {
      var i, j := ColMajorEntry(o, a.rows, a.cols);
      assert a.At(i, j) == b.At(i, j);
    }
  }
}
