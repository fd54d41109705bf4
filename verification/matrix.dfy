/** Dense real matrices: the value and gradient payload of every graph node.
    A matrix keeps its shape explicitly, so a matrix with zero rows still has a
    column count, as a two-dimensional array does. */
module Matrix {

  datatype Mat = Mat(rows: nat, cols: nat, data: seq<seq<real>>)

  /** The data is rectangular and agrees with the recorded shape. */
  predicate Valid(m: Mat) {
    |m.data| == m.rows && forall i :: 0 <= i < |m.data| ==> |m.data[i]| == m.cols
  }

  predicate SameShape(a: Mat, b: Mat) {
    a.rows == b.rows && a.cols == b.cols
  }

  /** Every entry is different from zero (a legal divisor). */
  predicate Nonzero(m: Mat)
    requires Valid(m)
  {
    forall i, j :: 0 <= i < m.rows && 0 <= j < m.cols ==> m.data[i][j] != 0.0
  }

  /** The single entry of a 1x1 matrix. */
  function Scalar(m: Mat): real
    requires Valid(m) && m.rows == 1 && m.cols == 1
  {
    m.data[0][0]
  }

  function Fill(r: nat, c: nat, x: real): (m: Mat)
    ensures Valid(m) && m.rows == r && m.cols == c
    ensures forall i, j :: 0 <= i < r && 0 <= j < c ==> m.data[i][j] == x
  {
    Mat(r, c, seq(r, _ => seq(c, _ => x)))
  }

  function Zeros(r: nat, c: nat): (m: Mat)
    ensures Valid(m) && m.rows == r && m.cols == c
    ensures forall i, j :: 0 <= i < r && 0 <= j < c ==> m.data[i][j] == 0.0
  {
    Fill(r, c, 0.0)
  }

  /** Zeros shaped like `m`. */
  function ZerosLike(m: Mat): (z: Mat)
    ensures Valid(z) && SameShape(z, m)
    ensures forall i, j :: 0 <= i < m.rows && 0 <= j < m.cols ==> z.data[i][j] == 0.0
  {
    Zeros(m.rows, m.cols)
  }

  predicate IsZero(m: Mat)
    requires Valid(m)
  {
    forall i, j :: 0 <= i < m.rows && 0 <= j < m.cols ==> m.data[i][j] == 0.0
  }

  /** Applies `f` to every entry. */
  function MatMap(a: Mat, f: real -> real): (m: Mat)
    requires Valid(a)
    ensures Valid(m) && SameShape(m, a)
    ensures forall i, j :: 0 <= i < a.rows && 0 <= j < a.cols ==> m.data[i][j] == f(a.data[i][j])
  {
    Mat(a.rows, a.cols,
        seq(a.rows, i requires 0 <= i < a.rows =>
          seq(a.cols, j requires 0 <= j < a.cols => f(a.data[i][j]))))
  }

  /** Combines two equally shaped matrices entry by entry. */
  function MatZip(a: Mat, b: Mat, f: (real, real) -> real): (m: Mat)
    requires Valid(a) && Valid(b) && SameShape(a, b)
    ensures Valid(m) && SameShape(m, a)
    ensures forall i, j :: 0 <= i < a.rows && 0 <= j < a.cols ==> m.data[i][j] == f(a.data[i][j], b.data[i][j])
  {
    Mat(a.rows, a.cols,
        seq(a.rows, i requires 0 <= i < a.rows =>
          seq(a.cols, j requires 0 <= j < a.cols => f(a.data[i][j], b.data[i][j]))))
  }

  function MatAdd(a: Mat, b: Mat): (m: Mat)
    requires Valid(a) && Valid(b) && SameShape(a, b)
    ensures Valid(m) && SameShape(m, a)
    ensures forall i, j :: 0 <= i < a.rows && 0 <= j < a.cols ==> m.data[i][j] == a.data[i][j] + b.data[i][j]
  {
    MatZip(a, b, (x, y) => x + y)
  }

  function MatSub(a: Mat, b: Mat): (m: Mat)
    requires Valid(a) && Valid(b) && SameShape(a, b)
    ensures Valid(m) && SameShape(m, a)
    ensures forall i, j :: 0 <= i < a.rows && 0 <= j < a.cols ==> m.data[i][j] == a.data[i][j] - b.data[i][j]
  {
    MatZip(a, b, (x, y) => x - y)
  }

  /** Elementwise product. */
  function Hadamard(a: Mat, b: Mat): (m: Mat)
    requires Valid(a) && Valid(b) && SameShape(a, b)
    ensures Valid(m) && SameShape(m, a)
    ensures forall i, j :: 0 <= i < a.rows && 0 <= j < a.cols ==> m.data[i][j] == a.data[i][j] * b.data[i][j]
  {
    MatZip(a, b, (x, y) => x * y)
  }

  function MatNeg(a: Mat): (m: Mat)
    requires Valid(a)
    ensures Valid(m) && SameShape(m, a)
    ensures forall i, j :: 0 <= i < a.rows && 0 <= j < a.cols ==> m.data[i][j] == -a.data[i][j]
  {
    MatMap(a, x => -x)
  }

  function MatScale(s: real, a: Mat): (m: Mat)
    requires Valid(a)
    ensures Valid(m) && SameShape(m, a)
    ensures forall i, j :: 0 <= i < a.rows && 0 <= j < a.cols ==> m.data[i][j] == s * a.data[i][j]
  {
    MatMap(a, x => s * x)
  }

  /** Elementwise quotient; the divisor must have no zero entry. */
  function MatDiv(a: Mat, b: Mat): (m: Mat)
    requires Valid(a) && Valid(b) && SameShape(a, b) && Nonzero(b)
    ensures Valid(m) && SameShape(m, a)
    ensures forall i, j :: 0 <= i < a.rows && 0 <= j < a.cols ==> m.data[i][j] == a.data[i][j] / b.data[i][j]
  {
    Mat(a.rows, a.cols,
        seq(a.rows, i requires 0 <= i < a.rows =>
          seq(a.cols, j requires 0 <= j < a.cols => a.data[i][j] / b.data[i][j])))
  }

  function Transpose(a: Mat): (m: Mat)
    requires Valid(a)
    ensures Valid(m) && m.rows == a.cols && m.cols == a.rows
    ensures forall i, j :: 0 <= i < a.cols && 0 <= j < a.rows ==> m.data[i][j] == a.data[j][i]
  {
    Mat(a.cols, a.rows,
        seq(a.cols, i requires 0 <= i < a.cols =>
          seq(a.rows, j requires 0 <= j < a.rows => a.data[j][i])))
  }

  /** Sum over t < k of a[i][t] * b[t][j]. */
  function Dot(a: Mat, b: Mat, i: nat, j: nat, k: nat): real
    requires Valid(a) && Valid(b) && a.cols == b.rows
    requires i < a.rows && j < b.cols && k <= a.cols
  {
    if k == 0 then 0.0 else Dot(a, b, i, j, k - 1) + a.data[i][k - 1] * b.data[k - 1][j]
  }

  /** Matrix product of an (m,k) and a (k,n) matrix. */
  function MatMul(a: Mat, b: Mat): (m: Mat)
    requires Valid(a) && Valid(b) && a.cols == b.rows
    ensures Valid(m) && m.rows == a.rows && m.cols == b.cols
    ensures forall i, j :: 0 <= i < a.rows && 0 <= j < b.cols ==> m.data[i][j] == Dot(a, b, i, j, a.cols)
  {
    Mat(a.rows, b.cols,
        seq(a.rows, i requires 0 <= i < a.rows =>
          seq(b.cols, j requires 0 <= j < b.cols => Dot(a, b, i, j, a.cols))))
  }

  lemma NonzeroProduct(a: Mat, b: Mat)
    requires Valid(a) && Valid(b) && SameShape(a, b) && Nonzero(a) && Nonzero(b)
    ensures Nonzero(Hadamard(a, b))
  {
    forall i, j | 0 <= i < a.rows && 0 <= j < a.cols
      ensures Hadamard(a, b).data[i][j] != 0.0
    {
      var x, y := a.data[i][j], b.data[i][j];
      assert x != 0.0 && y != 0.0;
      assert x * y != 0.0;
    }
  }

  /** Matrices are equal when their shapes and entries are. */
  lemma Ext(a: Mat, b: Mat)
    requires Valid(a) && Valid(b) && SameShape(a, b)
    requires forall i, j :: 0 <= i < a.rows && 0 <= j < a.cols ==> a.data[i][j] == b.data[i][j]
    ensures a == b
  {
    forall i | 0 <= i < a.rows
      ensures a.data[i] == b.data[i]
    {
      assert |a.data[i]| == |b.data[i]|;
    }
  }

  /** The product of two 1x1 matrices is the product of their entries. */
  lemma MatMulScalar(a: Mat, b: Mat)
    requires Valid(a) && Valid(b) && a.rows == 1 && a.cols == 1 && b.rows == 1 && b.cols == 1
    ensures Valid(MatMul(a, b)) && MatMul(a, b).rows == 1 && MatMul(a, b).cols == 1
    ensures Scalar(MatMul(a, b)) == Scalar(a) * Scalar(b)
  {
    assert Dot(a, b, 0, 0, 1) == a.data[0][0] * b.data[0][0];
  }
}
