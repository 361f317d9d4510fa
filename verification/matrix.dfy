/** The algebraic rewrite rules of optimizer/src/rules.rs on matrices over the reals. */
module MatrixRules {

  // ---------------------------------------------------------------------------------------------
  // Finite sums

  function Sum(n: nat, f: int -> real): real {
    if n == 0 then 0.0 else Sum(n - 1, f) + f(n - 1)
  }

  lemma {:induction false} SumEq(n: nat, f: int -> real, g: int -> real)
    requires forall k :: 0 <= k < n ==> f(k) == g(k)
    ensures Sum(n, f) == Sum(n, g)
  {
    if n > 0 { SumEq(n - 1, f, g); }
  }

  lemma {:induction false} SumAdd(n: nat, f: int -> real, g: int -> real)
    ensures Sum(n, k => f(k) + g(k)) == Sum(n, f) + Sum(n, g)
  {
    if n > 0 { SumAdd(n - 1, f, g); }
  }

  lemma {:induction false} SumScale(n: nat, c: real, f: int -> real)
    ensures Sum(n, k => c * f(k)) == c * Sum(n, f)
  {
    if n > 0 { SumScale(n - 1, c, f); }
  }

  lemma {:induction false} ScaledSum(n: nat, c: real, f: int -> real, g: int -> real)
    requires forall k :: 0 <= k < n ==> g(k) == c * f(k)
    ensures Sum(n, g) == c * Sum(n, f)
  {
    if n > 0 { ScaledSum(n - 1, c, f, g); }
  }

  lemma {:induction false} SumTogether(n: nat, c: real, f: int -> real, g: int -> real, h: int -> real)
    requires forall k :: 0 <= k < n ==> h(k) == f(k) + c * g(k)
    ensures Sum(n, h) == Sum(n, f) + c * Sum(n, g)
  {
    if n > 0 { SumTogether(n - 1, c, f, g, h); }
  }

  lemma Regroup(x: real, y: real, z: real)
    ensures x * y * z == x * (y * z) && x * y * z == z * (x * y)
  {
  }

  lemma {:induction false} SumSplit(m: nat, n: nat, f: int -> real)
    ensures Sum(m + n, f) == Sum(m, f) + Sum(n, k => f(m + k))
  {
    if n > 0 { SumSplit(m, n - 1, f); }
  }

  lemma {:induction false} SumSwap(m: nat, n: nat, f: (int, int) -> real)
    ensures Sum(m, i => Sum(n, j => f(i, j))) == Sum(n, j => Sum(m, i => f(i, j)))
  {
    if m == 0 {
      SumEq(n, j => Sum(m, i => f(i, j)), j => 0.0);
      SumZero(n);
    } else {
      SumSwap(m - 1, n, f);
      var top := j => Sum(m - 1, i => f(i, j));
      var last := j => f(m - 1, j);
      SumAdd(n, top, last);
      SumEq(n, j => Sum(m, i => f(i, j)), j => top(j) + last(j));
    }
  }

  lemma {:induction false} SumZero(n: nat)
    ensures Sum(n, k => 0.0) == 0.0
  {
    if n > 0 { SumZero(n - 1); }
  }

  // ---------------------------------------------------------------------------------------------
  // Matrices

  datatype Mat = Mat(rows: nat, cols: nat, entries: seq<seq<real>>)
  {
    predicate Valid() {
      |entries| == rows && forall i :: 0 <= i < rows ==> |entries[i]| == cols
    }

    function At(i: int, j: int): real {
      if 0 <= i < |entries| && 0 <= j < |entries[i]| then entries[i][j] else 0.0
    }
  }

  function Make(rows: nat, cols: nat, f: (int, int) -> real): (m: Mat)
    ensures m.Valid() && m.rows == rows && m.cols == cols
    ensures forall i, j :: 0 <= i < rows && 0 <= j < cols ==> m.At(i, j) == f(i, j)
  {
    Mat(rows, cols, seq(rows, i => seq(cols, j => f(i, j))))
  }

  lemma SameMat(a: Mat, b: Mat)
    requires a.Valid() && b.Valid() && a.rows == b.rows && a.cols == b.cols
    requires forall i, j :: 0 <= i < a.rows && 0 <= j < a.cols ==> a.At(i, j) == b.At(i, j)
    ensures a == b
  {
    forall i | 0 <= i < a.rows ensures a.entries[i] == b.entries[i] {
      forall j | 0 <= j < a.cols ensures a.entries[i][j] == b.entries[i][j] {
        assert a.At(i, j) == b.At(i, j);
      }
    }
  }

  /** Entry by entry. */
  function Zip(f: (real, real) -> real, a: Mat, b: Mat): Mat {
    Make(a.rows, a.cols, (i, j) => f(a.At(i, j), b.At(i, j)))
  }

  function Add(a: Mat, b: Mat): Mat { Zip((x, y) => x + y, a, b) }
  function Sub(a: Mat, b: Mat): Mat { Zip((x, y) => x - y, a, b) }
  function Mul(a: Mat, b: Mat): Mat { Zip((x, y) => x * y, a, b) }

  function Product(a: Mat, b: Mat, i: int, j: int): int -> real {
    k => a.At(i, k) * b.At(k, j)
  }

  function MatMul(a: Mat, b: Mat): Mat {
    Make(a.rows, b.cols, (i, j) => Sum(a.cols, Product(a, b, i, j)))
  }

  /** Rows below each other (axis 0) or side by side (axis 1). */
  function Stack(a: Mat, b: Mat, axis: int): Mat {
    if axis == 0 then Make(a.rows + b.rows, a.cols, (i, j) => if i < a.rows then a.At(i, j) else b.At(i - a.rows, j))
    else Make(a.rows, a.cols + b.cols, (i, j) => if j < a.cols then a.At(i, j) else b.At(i, j - a.cols))
  }

  /** Division by a vector broadcast along an axis: axis 1 repeats it over the columns, axis 0 over the
      rows.  `recip` is whatever the arithmetic makes of a reciprocal, zero included. */
  function DivBcast(recip: real -> real, a: Mat, v: Mat, axis: int): Mat {
    Make(a.rows, a.cols, (i, j) => a.At(i, j) * recip(v.At(if axis == 1 then i else j, 0)))
  }

  // ---------------------------------------------------------------------------------------------
  // Terms

  datatype BinOp = Plus | Minus | Times | At

  datatype Term =
    | Var(name: string)
    | Bin(op: BinOp, a: Term, b: Term)
    | Concat(a: Term, b: Term, axis: int)
    | Div(a: Term, b: Term, axis: int)

  datatype Option<+T> = None | Some(value: T)

  type Valuation = string -> Mat

  function EvalBin(op: BinOp, x: Mat, y: Mat): Option<Mat> {
    match op
    case At => if x.cols == y.rows then Some(MatMul(x, y)) else None
    case _ =>
      if x.rows != y.rows || x.cols != y.cols then None
      else Some(match op case Plus => Add(x, y) case Minus => Sub(x, y) case _ => Mul(x, y))
  }

  function EvalConcat(x: Mat, y: Mat, axis: int): Option<Mat> {
    if (axis == 0 && x.cols == y.cols) || (axis == 1 && x.rows == y.rows) then Some(Stack(x, y, axis)) else None
  }

  function EvalDiv(recip: real -> real, x: Mat, v: Mat, axis: int): Option<Mat> {
    if v.cols == 1 && ((axis == 1 && v.rows == x.rows) || (axis == 0 && v.rows == x.cols)) then
      Some(DivBcast(recip, x, v, axis)) else None
  }

  /** The value of a term, or nothing where its shapes do not fit. */
  function Eval(recip: real -> real, e: Term, val: Valuation): Option<Mat> {
    match e
    case Var(x) => if val(x).Valid() then Some(val(x)) else None
    case Bin(op, a, b) =>
      (match (Eval(recip, a, val), Eval(recip, b, val))
       case (Some(x), Some(y)) => EvalBin(op, x, y)
       case (_, _) => None)
    case Concat(a, b, axis) =>
      (match (Eval(recip, a, val), Eval(recip, b, val))
       case (Some(x), Some(y)) => EvalConcat(x, y, axis)
       case (_, _) => None)
    case Div(a, b, axis) =>
      (match (Eval(recip, a, val), Eval(recip, b, val))
       case (Some(x), Some(y)) => EvalDiv(recip, x, y, axis)
       case (_, _) => None)
  }

  // ---------------------------------------------------------------------------------------------
  // The rules

  datatype Rule =
    | CommAdd | AssocAdd | AssocAdd2 | CommMul | AssocMul | AssocMul2 | AssocMatmul | AssocMatmul2
    | AssocDivMatmul
    | DistMulAdd | DistMulSub | DistMatmulAdd | DistMatmulSub
    | FactorMulAdd | FactorMulSub | FactorMatmulAdd | FactorMatmulSub
    | GeometryOfConcat | GeometryOfConcatInv
    | OperatorComm6 | OperatorComm6Inv | OperatorComm7 | OperatorComm7Inv
    | ConcatAndMatmul0 | ConcatAndMatmul0Inv | ConcatAndMatmul1 | ConcatAndMatmul1Inv

  predicate IsBin(e: Term, op: BinOp) { e.Bin? && e.op == op }
  predicate IsConcat(e: Term, axis: int) { e.Concat? && e.axis == axis }

  /** a op1 (b op2 c)  ~>  (a op1 b) op2 (a op1 c) */
  predicate Distributes(l: Term, r: Term, op1: BinOp, op2: BinOp) {
    IsBin(l, op1) && IsBin(l.b, op2) && r == Bin(op2, Bin(op1, l.a, l.b.a), Bin(op1, l.a, l.b.b))
  }

  /** a op (b op c)  ~>  (a op b) op c */
  predicate Associates(l: Term, r: Term, op: BinOp) {
    IsBin(l, op) && IsBin(l.b, op) && r == Bin(op, Bin(op, l.a, l.b.a), l.b.b)
  }

  /** concat(concat(x, z, 0), concat(y, w, 0), 1)  ~>  concat(concat(x, y, 1), concat(z, w, 1), 0) */
  predicate Interchanges(l: Term, r: Term) {
    IsConcat(l, 1) && IsConcat(l.a, 0) && IsConcat(l.b, 0) &&
      r == Concat(Concat(l.a.a, l.b.a, 1), Concat(l.a.b, l.b.b, 1), 0)
  }

  /** concat(x, z, a) op concat(y, w, a)  ~>  concat(x op y, z op w, a) */
  predicate OpOverConcat(l: Term, r: Term, op: BinOp) {
    IsBin(l, op) && l.a.Concat? && l.b.Concat? && l.a.axis == l.b.axis &&
    r == Concat(Bin(op, l.a.a, l.b.a), Bin(op, l.a.b, l.b.b), l.a.axis)
  }

  /** x @ concat(y, z, 1)  ~>  concat(x @ y, x @ z, 1) */
  predicate MatmulOverColumns(l: Term, r: Term) {
    IsBin(l, At) && IsConcat(l.b, 1) && r == Concat(Bin(At, l.a, l.b.a), Bin(At, l.a, l.b.b), 1)
  }

  /** a @ b + c @ d  ~>  concat(a, c, 1) @ concat(b, d, 0) */
  predicate SumOfProducts(l: Term, r: Term) {
    IsBin(l, Plus) && IsBin(l.a, At) && IsBin(l.b, At) && r == Bin(At, Concat(l.a.a, l.b.a, 1), Concat(l.a.b, l.b.b, 0))
  }

  predicate Applies(rule: Rule, l: Term, r: Term) {
    match rule
    case CommAdd => IsBin(l, Plus) && r == Bin(Plus, l.b, l.a)
    case AssocAdd => Associates(l, r, Plus)
    case AssocAdd2 => Associates(r, l, Plus)
    case CommMul => IsBin(l, Times) && r == Bin(Times, l.b, l.a)
    case AssocMul => Associates(l, r, Times)
    case AssocMul2 => Associates(r, l, Times)
    case AssocMatmul => Associates(l, r, At)
    case AssocMatmul2 => Associates(r, l, At)
    case AssocDivMatmul => IsBin(l, At) && l.a.Div? && r == Div(Bin(At, l.a.a, l.b), l.a.b, l.a.axis)
    case DistMulAdd => Distributes(l, r, Times, Plus)
    case DistMulSub => Distributes(l, r, Times, Minus)
    case DistMatmulAdd => Distributes(l, r, At, Plus)
    case DistMatmulSub => Distributes(l, r, At, Minus)
    case FactorMulAdd => Distributes(r, l, Times, Plus)
    case FactorMulSub => Distributes(r, l, Times, Minus)
    case FactorMatmulAdd => Distributes(r, l, At, Plus)
    case FactorMatmulSub => Distributes(r, l, At, Minus)
    case GeometryOfConcat => Interchanges(l, r)
    case GeometryOfConcatInv => Interchanges(r, l)
    case OperatorComm6 => OpOverConcat(l, r, Plus)
    case OperatorComm6Inv => OpOverConcat(r, l, Plus)
    case OperatorComm7 => OpOverConcat(l, r, Times)
    case OperatorComm7Inv => OpOverConcat(r, l, Times)
    case ConcatAndMatmul0 => MatmulOverColumns(l, r)
    case ConcatAndMatmul0Inv => MatmulOverColumns(r, l)
    case ConcatAndMatmul1 => SumOfProducts(l, r)
    case ConcatAndMatmul1Inv => SumOfProducts(r, l)
  }

  // ---------------------------------------------------------------------------------------------
  // Their matrix laws

  /** One entry of (a b) c, summed over the inner dimension last or first. */
  lemma MatMulAssocAt(a: Mat, b: Mat, c: Mat, i: int, j: int)
    requires a.cols == b.rows && b.cols == c.rows && 0 <= i < a.rows && 0 <= j < c.cols
    ensures Sum(a.cols, Product(a, MatMul(b, c), i, j)) == Sum(b.cols, Product(MatMul(a, b), c, i, j))
  {
    var f := (k: int, p: int) => a.At(i, k) * b.At(k, p) * c.At(p, j);
    AssocInner(a, b, c, i, j, f);
    AssocOuter(a, b, c, i, j, f);
    SumSwap(a.cols, b.cols, f);
  }

  lemma AssocInner(a: Mat, b: Mat, c: Mat, i: int, j: int, f: (int, int) -> real)
    requires a.cols == b.rows && b.cols == c.rows && 0 <= i < a.rows && 0 <= j < c.cols
    requires forall k, p :: f(k, p) == a.At(i, k) * b.At(k, p) * c.At(p, j)
    ensures Sum(a.cols, Product(a, MatMul(b, c), i, j)) == Sum(a.cols, k => Sum(b.cols, p => f(k, p)))
  {
    var left, right := Product(a, MatMul(b, c), i, j), k => Sum(b.cols, p => f(k, p));
    forall k | 0 <= k < a.cols ensures left(k) == right(k) { InnerTerm(a, b, c, i, j, k, p => f(k, p)); }
    SumEq(a.cols, left, right);
  }

  /** One term of the outer sum, as a sum itself. */
  lemma InnerTerm(a: Mat, b: Mat, c: Mat, i: int, j: int, k: int, g: int -> real)
    requires a.cols == b.rows && b.cols == c.rows && 0 <= i < a.rows && 0 <= j < c.cols && 0 <= k < a.cols
    requires forall p :: g(p) == a.At(i, k) * b.At(k, p) * c.At(p, j)
    ensures a.At(i, k) * MatMul(b, c).At(k, j) == Sum(b.cols, g)
  {
    assert MatMul(b, c).At(k, j) == Sum(b.cols, Product(b, c, k, j));
    forall p | 0 <= p < b.cols ensures g(p) == a.At(i, k) * Product(b, c, k, j)(p) {
      Regroup(a.At(i, k), b.At(k, p), c.At(p, j));
    }
    ScaledSum(b.cols, a.At(i, k), Product(b, c, k, j), g);
  }

  lemma AssocOuter(a: Mat, b: Mat, c: Mat, i: int, j: int, f: (int, int) -> real)
    requires a.cols == b.rows && b.cols == c.rows && 0 <= i < a.rows && 0 <= j < c.cols
    requires forall k, p :: f(k, p) == a.At(i, k) * b.At(k, p) * c.At(p, j)
    ensures Sum(b.cols, p => Sum(a.cols, k => f(k, p))) == Sum(b.cols, Product(MatMul(a, b), c, i, j))
  {
    var left, right := p => Sum(a.cols, k => f(k, p)), Product(MatMul(a, b), c, i, j);
    forall p | 0 <= p < b.cols ensures left(p) == right(p) { OuterTerm(a, b, c, i, j, p, k => f(k, p)); }
    SumEq(b.cols, left, right);
  }

  lemma OuterTerm(a: Mat, b: Mat, c: Mat, i: int, j: int, p: int, g: int -> real)
    requires a.cols == b.rows && b.cols == c.rows && 0 <= i < a.rows && 0 <= j < c.cols && 0 <= p < b.cols
    requires forall k :: g(k) == a.At(i, k) * b.At(k, p) * c.At(p, j)
    ensures Sum(a.cols, g) == MatMul(a, b).At(i, p) * c.At(p, j)
  {
    assert MatMul(a, b).At(i, p) == Sum(a.cols, Product(a, b, i, p));
    forall k | 0 <= k < a.cols ensures g(k) == c.At(p, j) * Product(a, b, i, p)(k) {
      Regroup(a.At(i, k), b.At(k, p), c.At(p, j));
    }
    ScaledSum(a.cols, c.At(p, j), Product(a, b, i, p), g);
  }

  lemma MatMulAssoc(a: Mat, b: Mat, c: Mat)
    requires a.cols == b.rows && b.cols == c.rows
    ensures MatMul(a, MatMul(b, c)) == MatMul(MatMul(a, b), c)
  {
    var l, r := MatMul(a, MatMul(b, c)), MatMul(MatMul(a, b), c);
    forall i, j | 0 <= i < a.rows && 0 <= j < c.cols ensures l.At(i, j) == r.At(i, j) {
      MatMulAssocAt(a, b, c, i, j);
    }
    SameMat(l, r);
  }

  /** One entry of a product with a sum or a difference. */
  lemma OverAt(a: Mat, b: Mat, c: Mat, d: Mat, sign: real, i: int, j: int)
    requires a.cols == b.rows == c.rows == d.rows && b.cols == c.cols == d.cols && 0 <= i < a.rows && 0 <= j < b.cols
    requires forall k :: 0 <= k < b.rows ==> d.At(k, j) == b.At(k, j) + sign * c.At(k, j)
    ensures Sum(a.cols, Product(a, d, i, j)) ==
      Sum(a.cols, Product(a, b, i, j)) + sign * Sum(a.cols, Product(a, c, i, j))
  {
    forall k | 0 <= k < a.cols
      ensures Product(a, d, i, j)(k) == Product(a, b, i, j)(k) + sign * Product(a, c, i, j)(k)
    {
      Spread(a.At(i, k), b.At(k, j), sign, c.At(k, j));
    }
    SumTogether(a.cols, sign, Product(a, b, i, j), Product(a, c, i, j), Product(a, d, i, j));
  }

  lemma Spread(x: real, y: real, s: real, z: real)
    ensures x * (y + s * z) == x * y + s * (x * z)
  {
  }

  lemma MatMulOverAdd(a: Mat, b: Mat, c: Mat)
    requires a.cols == b.rows == c.rows && b.cols == c.cols
    ensures MatMul(a, Add(b, c)) == Add(MatMul(a, b), MatMul(a, c))
  {
    var l, r := MatMul(a, Add(b, c)), Add(MatMul(a, b), MatMul(a, c));
    forall i, j | 0 <= i < a.rows && 0 <= j < b.cols ensures l.At(i, j) == r.At(i, j) {
      OverAt(a, b, c, Add(b, c), 1.0, i, j);
    }
    SameMat(l, r);
  }

  lemma MatMulOverSub(a: Mat, b: Mat, c: Mat)
    requires a.cols == b.rows == c.rows && b.cols == c.cols
    ensures MatMul(a, Sub(b, c)) == Sub(MatMul(a, b), MatMul(a, c))
  {
    var l, r := MatMul(a, Sub(b, c)), Sub(MatMul(a, b), MatMul(a, c));
    forall i, j | 0 <= i < a.rows && 0 <= j < b.cols ensures l.At(i, j) == r.At(i, j) {
      OverAt(a, b, c, Sub(b, c), -1.0, i, j);
    }
    SameMat(l, r);
  }

  /** Dividing every row by its own number commutes with a product on the right. */
  lemma DivThroughAt(recip: real -> real, a: Mat, v: Mat, c: Mat, i: int, j: int)
    requires a.cols == c.rows && v.rows == a.rows && v.cols == 1 && 0 <= i < a.rows && 0 <= j < c.cols
    ensures Sum(a.cols, Product(DivBcast(recip, a, v, 1), c, i, j)) ==
      recip(v.At(i, 0)) * Sum(a.cols, Product(a, c, i, j))
  {
    var s, d := recip(v.At(i, 0)), DivBcast(recip, a, v, 1);
    forall k | 0 <= k < a.cols ensures Product(d, c, i, j)(k) == s * Product(a, c, i, j)(k) {
      assert d.At(i, k) == a.At(i, k) * s;
      Regroup(a.At(i, k), c.At(k, j), s);
      Regroup(a.At(i, k), s, c.At(k, j));
    }
    ScaledSum(a.cols, s, Product(a, c, i, j), Product(d, c, i, j));
  }

  lemma DivThroughMatMul(recip: real -> real, a: Mat, v: Mat, c: Mat)
    requires a.cols == c.rows && v.rows == a.rows && v.cols == 1
    ensures MatMul(DivBcast(recip, a, v, 1), c) == DivBcast(recip, MatMul(a, c), v, 1)
  {
    var l, r := MatMul(DivBcast(recip, a, v, 1), c), DivBcast(recip, MatMul(a, c), v, 1);
    forall i, j | 0 <= i < a.rows && 0 <= j < c.cols ensures l.At(i, j) == r.At(i, j) {
      DivThroughAt(recip, a, v, c, i, j);
      assert r.At(i, j) == MatMul(a, c).At(i, j) * recip(v.At(i, 0));
    }
    SameMat(l, r);
  }

  lemma MatMulColumns(x: Mat, y: Mat, z: Mat)
    requires x.cols == y.rows == z.rows
    ensures MatMul(x, Stack(y, z, 1)) == Stack(MatMul(x, y), MatMul(x, z), 1)
  {
    var l, r := MatMul(x, Stack(y, z, 1)), Stack(MatMul(x, y), MatMul(x, z), 1);
    forall i, j | 0 <= i < x.rows && 0 <= j < y.cols + z.cols ensures l.At(i, j) == r.At(i, j) {
      if j < y.cols {
        SumEq(x.cols, Product(x, Stack(y, z, 1), i, j), Product(x, y, i, j));
      } else {
        SumEq(x.cols, Product(x, Stack(y, z, 1), i, j), Product(x, z, i, j - y.cols));
      }
    }
    SameMat(l, r);
  }

  lemma BlockProductAt(a: Mat, b: Mat, c: Mat, d: Mat, i: int, j: int)
    requires a.cols == b.rows && c.cols == d.rows && a.rows == c.rows && b.cols == d.cols
    requires 0 <= i < a.rows && 0 <= j < b.cols
    ensures Sum(a.cols + c.cols, Product(Stack(a, c, 1), Stack(b, d, 0), i, j)) ==
      Sum(a.cols, Product(a, b, i, j)) + Sum(c.cols, Product(c, d, i, j))
  {
    var f := Product(Stack(a, c, 1), Stack(b, d, 0), i, j);
    var rest := k => f(a.cols + k);
    SumSplit(a.cols, c.cols, f);
    forall k ensures 0 <= k < a.cols ==> f(k) == Product(a, b, i, j)(k) {
      if 0 <= k < a.cols { FirstBlock(a, b, c, d, i, j, k); }
    }
    SumEq(a.cols, f, Product(a, b, i, j));
    forall k ensures 0 <= k < c.cols ==> rest(k) == Product(c, d, i, j)(k) {
      if 0 <= k < c.cols { SecondBlock(a, b, c, d, i, j, k); }
    }
    SumEq(c.cols, rest, Product(c, d, i, j));
  }

  lemma FirstBlock(a: Mat, b: Mat, c: Mat, d: Mat, i: int, j: int, k: int)
    requires a.cols == b.rows && c.cols == d.rows && a.rows == c.rows && b.cols == d.cols
    requires 0 <= i < a.rows && 0 <= j < b.cols && 0 <= k < a.cols
    ensures Product(Stack(a, c, 1), Stack(b, d, 0), i, j)(k) == Product(a, b, i, j)(k)
  {
    StackAt(a, c, 1, i, k);
    StackAt(b, d, 0, k, j);
  }

  lemma SecondBlock(a: Mat, b: Mat, c: Mat, d: Mat, i: int, j: int, k: int)
    requires a.cols == b.rows && c.cols == d.rows && a.rows == c.rows && b.cols == d.cols
    requires 0 <= i < a.rows && 0 <= j < b.cols && 0 <= k < c.cols
    ensures Product(Stack(a, c, 1), Stack(b, d, 0), i, j)(a.cols + k) == Product(c, d, i, j)(k)
  {
    StackAt(a, c, 1, i, a.cols + k);
    StackAt(b, d, 0, a.cols + k, j);
  }

  lemma BlockProduct(a: Mat, b: Mat, c: Mat, d: Mat)
    requires a.cols == b.rows && c.cols == d.rows && a.rows == c.rows && b.cols == d.cols
    ensures MatMul(Stack(a, c, 1), Stack(b, d, 0)) == Add(MatMul(a, b), MatMul(c, d))
  {
    var l, r := MatMul(Stack(a, c, 1), Stack(b, d, 0)), Add(MatMul(a, b), MatMul(c, d));
    forall i, j | 0 <= i < a.rows && 0 <= j < b.cols ensures l.At(i, j) == r.At(i, j) {
      BlockProductAt(a, b, c, d, i, j);
    }
    SameMat(l, r);
  }

  lemma BlocksInterchange(x: Mat, y: Mat, z: Mat, w: Mat)
    requires x.cols == z.cols && y.cols == w.cols && x.rows == y.rows && z.rows == w.rows
    ensures Stack(Stack(x, z, 0), Stack(y, w, 0), 1) == Stack(Stack(x, y, 1), Stack(z, w, 1), 0)
  {
    var l, r := Stack(Stack(x, z, 0), Stack(y, w, 0), 1), Stack(Stack(x, y, 1), Stack(z, w, 1), 0);
    SameMat(l, r);
  }

  // ---------------------------------------------------------------------------------------------
  // Soundness

  predicate SameShape(x: Mat, y: Mat) { x.rows == y.rows && x.cols == y.cols }

  lemma AddLaws(x: Mat, y: Mat, z: Mat)
    requires SameShape(x, y) && SameShape(y, z)
    ensures Add(x, y) == Add(y, x)
    ensures Add(x, Add(y, z)) == Add(Add(x, y), z)
  {
    SameMat(Add(x, y), Add(y, x));
    SameMat(Add(x, Add(y, z)), Add(Add(x, y), z));
  }

  lemma MulLaws(x: Mat, y: Mat, z: Mat)
    requires SameShape(x, y) && SameShape(y, z)
    ensures Mul(x, y) == Mul(y, x)
    ensures Mul(x, Mul(y, z)) == Mul(Mul(x, y), z)
  {
    SameMat(Mul(x, y), Mul(y, x));
    var l, r := Mul(x, Mul(y, z)), Mul(Mul(x, y), z);
    forall i, j | 0 <= i < x.rows && 0 <= j < x.cols ensures l.At(i, j) == r.At(i, j) {
      var p, q, s := x.At(i, j), y.At(i, j), z.At(i, j);
      assert p * (q * s) == p * q * s;
    }
    SameMat(l, r);
  }

  lemma MulOver(x: Mat, y: Mat, z: Mat)
    requires SameShape(x, y) && SameShape(y, z)
    ensures Mul(x, Add(y, z)) == Add(Mul(x, y), Mul(x, z))
    ensures Mul(x, Sub(y, z)) == Sub(Mul(x, y), Mul(x, z))
  {
    SameMat(Mul(x, Add(y, z)), Add(Mul(x, y), Mul(x, z)));
    SameMat(Mul(x, Sub(y, z)), Sub(Mul(x, y), Mul(x, z)));
  }

  predicate Stackable(x: Mat, z: Mat, axis: int) {
    (axis == 0 && x.cols == z.cols) || (axis == 1 && x.rows == z.rows)
  }

  /** An entry of a stack comes from one of its two blocks. */
  lemma StackAt(x: Mat, z: Mat, axis: int, i: int, j: int)
    requires Stackable(x, z, axis) && 0 <= i < Stack(x, z, axis).rows && 0 <= j < Stack(x, z, axis).cols
    ensures Stack(x, z, axis).At(i, j) ==
            if (if axis == 0 then i < x.rows else j < x.cols) then x.At(i, j)
            else if axis == 0 then z.At(i - x.rows, j) else z.At(i, j - x.cols)
  {
  }

  lemma ZipConcat(f: (real, real) -> real, x: Mat, y: Mat, z: Mat, w: Mat, axis: int)
    requires SameShape(x, y) && SameShape(z, w) && Stackable(x, z, axis)
    ensures Zip(f, Stack(x, z, axis), Stack(y, w, axis)) == Stack(Zip(f, x, y), Zip(f, z, w), axis)
  {
    var l, r := Zip(f, Stack(x, z, axis), Stack(y, w, axis)), Stack(Zip(f, x, y), Zip(f, z, w), axis);
    forall i, j | 0 <= i < l.rows && 0 <= j < l.cols ensures l.At(i, j) == r.At(i, j) {
      StackAt(x, z, axis, i, j);
      StackAt(y, w, axis, i, j);
      StackAt(Zip(f, x, y), Zip(f, z, w), axis, i, j);
    }
    SameMat(l, r);
  }

  // ---------------------------------------------------------------------------------------------
  // Soundness of the rules

  /** The values two terms have under one valuation agree, or one of the terms is not well shaped. */
  predicate Same(recip: real -> real, l: Term, r: Term, val: Valuation) {
    var x, y := Eval(recip, l, val), Eval(recip, r, val);
    x.Some? && y.Some? ==> x == y
  }

  /** What a well-shaped compound term says about its parts. */
  lemma Parts(recip: real -> real, e: Term, val: Valuation)
    requires Eval(recip, e, val).Some? && !e.Var?
    ensures Eval(recip, e.a, val).Some? && Eval(recip, e.b, val).Some?
    ensures e.Bin? ==> Eval(recip, e, val) == EvalBin(e.op, Eval(recip, e.a, val).value, Eval(recip, e.b, val).value)
    ensures e.Concat? ==>
      Eval(recip, e, val) == EvalConcat(Eval(recip, e.a, val).value, Eval(recip, e.b, val).value, e.axis)
    ensures e.Div? ==>
      Eval(recip, e, val) == EvalDiv(recip, Eval(recip, e.a, val).value, Eval(recip, e.b, val).value, e.axis)
  {
  }

  lemma DistributesSound(recip: real -> real, l: Term, r: Term, op1: BinOp, op2: BinOp, val: Valuation)
    requires Distributes(l, r, op1, op2) && (op1 == Times || op1 == At) && (op2 == Plus || op2 == Minus)
    ensures Same(recip, l, r, val)
  {
    if Eval(recip, l, val).Some? && Eval(recip, r, val).Some? {
      Parts(recip, l, val); Parts(recip, r, val); Parts(recip, l.b, val); Parts(recip, r.a, val);
        Parts(recip, r.b, val);
      var a, b, c := Eval(recip, l.a, val).value, Eval(recip, l.b.a, val).value, Eval(recip, l.b.b, val).value;
      if op1 == Times { MulOver(a, b, c); }
      else if op2 == Plus { MatMulOverAdd(a, b, c); }
      else { MatMulOverSub(a, b, c); }
    }
  }

  lemma AssociatesSound(recip: real -> real, l: Term, r: Term, op: BinOp, val: Valuation)
    requires Associates(l, r, op) && op != Minus
    ensures Same(recip, l, r, val)
  {
    if Eval(recip, l, val).Some? && Eval(recip, r, val).Some? {
      Parts(recip, l, val); Parts(recip, r, val); Parts(recip, l.b, val); Parts(recip, r.a, val);
      var a, b, c := Eval(recip, l.a, val).value, Eval(recip, l.b.a, val).value, Eval(recip, l.b.b, val).value;
      match op
      case Plus => AddLaws(a, b, c);
      case Times => MulLaws(a, b, c);
      case At => MatMulAssoc(a, b, c);
    }
  }

  lemma CommutesSound(recip: real -> real, l: Term, r: Term, op: BinOp, val: Valuation)
    requires IsBin(l, op) && r == Bin(op, l.b, l.a) && (op == Plus || op == Times)
    ensures Same(recip, l, r, val)
  {
    if Eval(recip, l, val).Some? && Eval(recip, r, val).Some? {
      Parts(recip, l, val); Parts(recip, r, val);
      var a, b := Eval(recip, l.a, val).value, Eval(recip, l.b, val).value;
      AddLaws(a, b, b);
      MulLaws(a, b, b);
    }
  }

  lemma InterchangesSound(recip: real -> real, l: Term, r: Term, val: Valuation)
    requires Interchanges(l, r)
    ensures Same(recip, l, r, val)
  {
    if Eval(recip, l, val).Some? && Eval(recip, r, val).Some? {
      Parts(recip, l, val); Parts(recip, r, val); Parts(recip, l.a, val); Parts(recip, l.b, val);
        Parts(recip, r.a, val); Parts(recip, r.b, val);
      var x, z := Eval(recip, l.a.a, val).value, Eval(recip, l.a.b, val).value;
      var y, w := Eval(recip, l.b.a, val).value, Eval(recip, l.b.b, val).value;
      BlocksInterchange(x, y, z, w);
    }
  }

  lemma OpOverConcatSound(recip: real -> real, l: Term, r: Term, op: BinOp, val: Valuation)
    requires OpOverConcat(l, r, op) && (op == Plus || op == Times)
    ensures Same(recip, l, r, val)
  {
    if Eval(recip, l, val).Some? && Eval(recip, r, val).Some? {
      Parts(recip, l, val); Parts(recip, r, val); Parts(recip, l.a, val); Parts(recip, l.b, val);
        Parts(recip, r.a, val); Parts(recip, r.b, val);
      var x, z := Eval(recip, l.a.a, val).value, Eval(recip, l.a.b, val).value;
      var y, w := Eval(recip, l.b.a, val).value, Eval(recip, l.b.b, val).value;
      ZipConcat(if op == Plus then (p, q) => p + q else (p, q) => p * q, x, y, z, w, l.a.axis);
    }
  }

  lemma MatmulOverColumnsSound(recip: real -> real, l: Term, r: Term, val: Valuation)
    requires MatmulOverColumns(l, r)
    ensures Same(recip, l, r, val)
  {
    if Eval(recip, l, val).Some? && Eval(recip, r, val).Some? {
      Parts(recip, l, val); Parts(recip, r, val); Parts(recip, l.b, val); Parts(recip, r.a, val);
        Parts(recip, r.b, val);
      MatMulColumns(Eval(recip, l.a, val).value, Eval(recip, l.b.a, val).value, Eval(recip, l.b.b, val).value);
    }
  }

  lemma SumOfProductsSound(recip: real -> real, l: Term, r: Term, val: Valuation)
    requires SumOfProducts(l, r)
    ensures Same(recip, l, r, val)
  {
    if Eval(recip, l, val).Some? && Eval(recip, r, val).Some? {
      Parts(recip, l, val); Parts(recip, r, val); Parts(recip, l.a, val); Parts(recip, l.b, val);
        Parts(recip, r.a, val); Parts(recip, r.b, val);
      var a, b := Eval(recip, l.a.a, val).value, Eval(recip, l.a.b, val).value;
      var c, d := Eval(recip, l.b.a, val).value, Eval(recip, l.b.b, val).value;
      BlockProduct(a, b, c, d);
    }
  }

  lemma DivMatmulSound(recip: real -> real, l: Term, r: Term, val: Valuation)
    requires Applies(AssocDivMatmul, l, r) && l.a.axis == 1
    ensures Same(recip, l, r, val)
  {
    if Eval(recip, l, val).Some? && Eval(recip, r, val).Some? {
      Parts(recip, l, val); Parts(recip, r, val); Parts(recip, l.a, val); Parts(recip, r.a, val);
      DivThroughMatMul(recip, Eval(recip, l.a.a, val).value, Eval(recip, l.a.b, val).value,
        Eval(recip, l.b, val).value);
    }
  }

  /** A rule never changes a value, at any dimensions, whenever both of its sides are well shaped. */
  lemma RuleSound(recip: real -> real, rule: Rule, l: Term, r: Term, val: Valuation)
    requires Applies(rule, l, r)
    requires rule == AssocDivMatmul ==> l.a.axis == 1
    ensures Same(recip, l, r, val)
  {
    match rule
    case CommAdd => CommutesSound(recip, l, r, Plus, val);
    case AssocAdd => AssociatesSound(recip, l, r, Plus, val);
    case AssocAdd2 => AssociatesSound(recip, r, l, Plus, val);
    case CommMul => CommutesSound(recip, l, r, Times, val);
    case AssocMul => AssociatesSound(recip, l, r, Times, val);
    case AssocMul2 => AssociatesSound(recip, r, l, Times, val);
    case AssocMatmul => AssociatesSound(recip, l, r, At, val);
    case AssocMatmul2 => AssociatesSound(recip, r, l, At, val);
    case AssocDivMatmul => DivMatmulSound(recip, l, r, val);
    case DistMulAdd => DistributesSound(recip, l, r, Times, Plus, val);
    case DistMulSub => DistributesSound(recip, l, r, Times, Minus, val);
    case DistMatmulAdd => DistributesSound(recip, l, r, At, Plus, val);
    case DistMatmulSub => DistributesSound(recip, l, r, At, Minus, val);
    case FactorMulAdd => DistributesSound(recip, r, l, Times, Plus, val);
    case FactorMulSub => DistributesSound(recip, r, l, Times, Minus, val);
    case FactorMatmulAdd => DistributesSound(recip, r, l, At, Plus, val);
    case FactorMatmulSub => DistributesSound(recip, r, l, At, Minus, val);
    case GeometryOfConcat => InterchangesSound(recip, l, r, val);
    case GeometryOfConcatInv => InterchangesSound(recip, r, l, val);
    case OperatorComm6 => OpOverConcatSound(recip, l, r, Plus, val);
    case OperatorComm6Inv => OpOverConcatSound(recip, r, l, Plus, val);
    case OperatorComm7 => OpOverConcatSound(recip, l, r, Times, val);
    case OperatorComm7Inv => OpOverConcatSound(recip, r, l, Times, val);
    case ConcatAndMatmul0 => MatmulOverColumnsSound(recip, l, r, val);
    case ConcatAndMatmul0Inv => MatmulOverColumnsSound(recip, r, l, val);
    case ConcatAndMatmul1 => SumOfProductsSound(recip, l, r, val);
    case ConcatAndMatmul1Inv => SumOfProductsSound(recip, r, l, val);
  }

  // ---------------------------------------------------------------------------------------------
  // Rewriting at a subterm, and chains of rewrites

  /** A rule that keeps the value, at the root. */
  predicate Here(rule: Rule, s: Term, t: Term) { Applies(rule, s, t) && (rule == AssocDivMatmul ==> s.a.axis == 1) }

  /** One rule applied at one subterm. */
  predicate Rewrites(s: Term, t: Term) {
    (exists rule :: Here(rule, s, t)) ||
    match s
    case Var(_) => false
    case Bin(op, a, b) => t.Bin? && t.op == op && ((t.b == b && Rewrites(a, t.a)) || (t.a == a && Rewrites(b, t.b)))
    case Concat(a, b, axis) =>
      t.Concat? && t.axis == axis && ((t.b == b && Rewrites(a, t.a)) || (t.a == a && Rewrites(b, t.b)))
    case Div(a, b, axis) =>
      t.Div? && t.axis == axis && ((t.b == b && Rewrites(a, t.a)) || (t.a == a && Rewrites(b, t.b)))
  }

  lemma {:induction false} RewritesSound(recip: real -> real, s: Term, t: Term, val: Valuation)
    requires Rewrites(s, t)
    ensures Same(recip, s, t, val)
  {
    if rule :| Here(rule, s, t) {
      RuleSound(recip, rule, s, t, val);
    } else {
      if t.b == s.b && Rewrites(s.a, t.a) { RewritesSound(recip, s.a, t.a, val); }
      else { RewritesSound(recip, s.b, t.b, val); }
    }
  }

  predicate WellShaped(recip: real -> real, t: Term, val: Valuation) { Eval(recip, t, val).Some? }

  /** Any finite chain of rewrites, at any subterms, between well-shaped terms preserves the value. */
  lemma {:induction false} ChainSound(recip: real -> real, chain: seq<Term>, val: Valuation)
    requires |chain| > 0
    requires forall k :: 0 <= k < |chain| ==> WellShaped(recip, chain[k], val)
    requires forall k :: 0 <= k < |chain| - 1 ==> Rewrites(chain[k], chain[k + 1])
    ensures Eval(recip, chain[0], val) == Eval(recip, chain[|chain| - 1], val)
  {
    var n := |chain|;
    if n > 1 {
      var most := chain[..n - 1];
      forall k | 0 <= k < |most| - 1 ensures Rewrites(most[k], most[k + 1]) { assert Rewrites(chain[k], chain[k + 1]); }
      ChainSound(recip, most, val);
      assert Rewrites(chain[n - 2], chain[n - 2 + 1]);
      RewritesSound(recip, chain[n - 2], chain[n - 1], val);
      assert WellShaped(recip, chain[n - 2], val) && WellShaped(recip, chain[n - 1], val);
    }
  }

  function HalfOfTwo(x: real): real { if x == 2.0 then 0.5 else 1.0 }

  function Pick(a: Mat, c: Mat, v: Mat): Valuation {
    name => if name == "a" then a else if name == "c" then c else v
  }

  lemma TwoTerms(a: Mat, b: Mat)
    requires a.cols == 2
    ensures a.rows > 0 && b.cols > 0 ==> MatMul(a, b).At(0, 0) == a.At(0, 0) * b.At(0, 0) + a.At(0, 1) * b.At(1, 0)
  {
    var p := Product(a, b, 0, 0);
    assert Sum(2, p) == Sum(1, p) + p(1) && Sum(1, p) == Sum(0, p) + p(0);
  }

  const Ones := Make(1, 2, (i, j) => 1.0)
  const Exchange := Make(2, 2, (i, j) => if i == j then 0.0 else 1.0)
  const OneTwo := Make(2, 1, (i, j) => if i == 0 then 1.0 else 2.0)

  lemma DivExchanged()
    ensures MatMul(DivBcast(HalfOfTwo, Ones, OneTwo, 0), Exchange) != DivBcast(HalfOfTwo, MatMul(Ones, Exchange),
      OneTwo, 0)
  {
    var x, y := DivBcast(HalfOfTwo, Ones, OneTwo, 0), MatMul(Ones, Exchange);
    TwoTerms(x, Exchange);
    TwoTerms(Ones, Exchange);
    assert x.At(0, 0) == 1.0 && x.At(0, 1) == 0.5;
    assert MatMul(x, Exchange).At(0, 0) == 0.5;
    assert y.At(0, 0) == 1.0;
    assert DivBcast(HalfOfTwo, y, OneTwo, 0).At(0, 0) == 1.0;
  }

  /** Without the row condition the division rule is wrong: dividing the columns of [1 1] by 1 and 2 and
      then exchanging them is not dividing the exchanged row by 1 and 2. */
  lemma DivThroughMatmulNeedsRows(l: Term, r: Term, val: Valuation)
    requires l == Bin(At, Div(Var("a"), Var("v"), 0), Var("c")) && r == Div(Bin(At, Var("a"), Var("c")), Var("v"), 0)
    requires val == Pick(Ones, Exchange, OneTwo)
    ensures Applies(AssocDivMatmul, l, r) && WellShaped(HalfOfTwo, l, val) && WellShaped(HalfOfTwo, r, val)
    ensures !Same(HalfOfTwo, l, r, val)
  {
    assert val("a") == Ones && val("c") == Exchange && val("v") == OneTwo;
    assert Eval(HalfOfTwo, l.a, val) == Some(DivBcast(HalfOfTwo, Ones, OneTwo, 0));
    assert Eval(HalfOfTwo, l, val) == Some(MatMul(DivBcast(HalfOfTwo, Ones, OneTwo, 0), Exchange));
    assert Eval(HalfOfTwo, r.a, val) == Some(MatMul(Ones, Exchange));
    assert Eval(HalfOfTwo, r, val) == Some(DivBcast(HalfOfTwo, MatMul(Ones, Exchange), OneTwo, 0));
    DivExchanged();
  }

  /** The rule's pattern on three variables. */
  function DivideThenMultiply(axis: int): Term { Bin(At, Div(Var("a"), Var("v"), axis), Var("c")) }
  function MultiplyThenDivide(axis: int): Term { Div(Bin(At, Var("a"), Var("c")), Var("v"), axis) }

  /** The division rule is sound, for every reciprocal and all matrices, exactly when the division is not
      along the columns. */
  lemma DivRuleSoundIff(axis: int)
    ensures Applies(AssocDivMatmul, DivideThenMultiply(axis), MultiplyThenDivide(axis))
    ensures (forall recip, val :: Same(recip, DivideThenMultiply(axis), MultiplyThenDivide(axis), val)) <==> axis != 0
  {
    var l, r := DivideThenMultiply(axis), MultiplyThenDivide(axis);
    if axis == 0 {
      DivThroughMatmulNeedsRows(l, r, Pick(Ones, Exchange, OneTwo));
    } else {
      forall recip, val ensures Same(recip, l, r, val) {
        if axis == 1 {
          DivMatmulSound(recip, l, r, val);
        } else if Eval(recip, r, val).Some? {
          Parts(recip, r, val);
        }
      }
    }
  }
}
