/** When a constant may be inlined, exactly (frontend/utils/ir_utils.py, inline_elementwise_op_calls). */
module InlineExact {
  import opened Ast
  import opened Machines
  import opened Reordering
  import opened Elements
  import opened Inlining

  // A producer without loads has one value for all cells, and putting it in place of a load takes the
  // load's cells away.  Over arithmetic that forgets nothing this shows unless the store keeps what it
  // writes (ConstantExact); the input at the end passes the source's tests and changes an output.

  // ---------------------------------------------------------------------------------------------
  // Arithmetic that forgets nothing

  datatype Term =
    | Lit(text: string) | Cell(tensor: Name, at: Coord) | InRange(lo: int, len: int, at: Coord)
    | Scalar(op: Oper, args: seq<Term>) | OfTiles(op: Oper, tiles: seq<TileValue<Term>>)

  function FreeScalar(op: Oper, xs: seq<Term>): Term { Scalar(op, xs) }

  function FreeApply(op: Oper, vs: seq<TileValue<Term>>): TileValue<Term> {
    if IsElementwise(op) then Pointwise(FreeScalar, op, vs) else Uniform(OfTiles(op, vs))
  }

  /** A range with the cells it has, and its own numbers. */
  function Ranged(v: TileValue<Term>, lo: int, n: int): TileValue<Term> {
    match v
    case Uniform(_) => Uniform(InRange(lo, n, []))
    case Grid(c) => Grid(map q | q in c :: InRange(lo, n, q))
  }

  function Free(A: Arithmetic<Term>): Arithmetic<Term> {
    Arithmetic(A.size, t => Lit(t), (lo, n) => Ranged(A.arange(lo, n), lo, n), FreeApply, FreeScalar)
  }

  lemma FreeIsPointwise(A: Arithmetic<Term>)
    ensures PointwiseArithmetic(Free(A))
  {
  }

  /** Ranges have the same cells. */
  ghost predicate SameRanges<S(!new)>(A: Arithmetic<S>, B: Arithmetic<S>) {
    forall lo, n :: A.arange(lo, n).Uniform? == B.arange(lo, n).Uniform? && forall q :: TileHas(A.arange(lo, n), q) <==>
      TileHas(B.arange(lo, n), q)
  }

  lemma FreeRanges(A: Arithmetic<Term>)
    ensures SameRanges(Free(A), A)
  {
  }

  /** The conditions look at the cells of ranges only. */
  lemma {:induction false} SameAnchored<S(!new)>(A: Arithmetic<S>, B: Arithmetic<S>, e: Expr, out: Name, env: Env)
    requires SameRanges(A, B)
    ensures Anchored(A, e, out, env) <==> Anchored(B, e, out, env)
  {
    match e
    case Arange(x) => SameRange(A, B, Lookup(env, x).value, Lookup(env, x).step);
    case Op(op, args) =>
      forall k | 0 <= k < |args| ensures Anchored(A, args[k], out, env) <==> Anchored(B, args[k], out, env) {
        SameAnchored(A, B, args[k], out, env);
      }
    case _ =>
  }

  lemma {:induction false} SameOthersAt<S(!new)>(A: Arithmetic<S>, B: Arithmetic<S>, e: Expr, out: Name, env: Env,
      shape: Mem<Cells<S>>, q: Coord)
    requires SameRanges(A, B)
    ensures InOthers(A, e, out, env, shape, q) <==> InOthers(B, e, out, env, shape, q)
  {
    match e
    case Arange(x) => SameRange(A, B, Lookup(env, x).value, Lookup(env, x).step);
    case Op(op, args) =>
      forall k | 0 <= k < |args|
        ensures InOthers(A, args[k], out, env, shape, q) <==> InOthers(B, args[k], out, env, shape, q)
      {
        SameOthersAt(A, B, args[k], out, env, shape, q);
      }
    case _ =>
  }

  lemma SameOthers<S(!new)>(A: Arithmetic<S>, B: Arithmetic<S>, e: Expr, out: Name, env: Env, shape: Mem<Cells<S>>)
    requires SameRanges(A, B)
    ensures Anchored(A, e, out, env) <==> Anchored(B, e, out, env)
    ensures forall q :: InOthers(A, e, out, env, shape, q) <==> InOthers(B, e, out, env, shape, q)
    ensures Shows(A, e, out, env, shape) <==> Shows(B, e, out, env, shape)
  {
    SameAnchored(A, B, e, out, env);
    forall q
      ensures InOthers(A, e, out, env, shape, q) <==> InOthers(B, e, out, env, shape, q)
    {
      SameOthersAt(A, B, e, out, env, shape, q);
    }
  }

  lemma SameRange<S(!new)>(A: Arithmetic<S>, B: Arithmetic<S>, lo: int, n: int)
    requires SameRanges(A, B)
    ensures A.arange(lo, n).Uniform? == B.arange(lo, n).Uniform? && forall q :: TileHas(A.arange(lo, n), q) <==>
      TileHas(B.arange(lo, n), q)
  {
  }

  lemma {:induction false} SameInside<S(!new)>(A: Arithmetic<S>, B: Arithmetic<S>, e: Expr, out: Name, env: Env,
      shape: Mem<Cells<S>>)
    requires SameRanges(A, B)
    ensures KeepsInside(A, e, out, env, shape) <==> KeepsInside(B, e, out, env, shape)
    decreases e, 0
  {
    if e.Op? {
      if IsElementwise(e.op) {
        forall k | 0 <= k < |e.args|
          ensures KeepsInside(A, e.args[k], out, env, shape) <==> KeepsInside(B, e.args[k], out, env, shape)
        {
          SameInside(A, B, e.args[k], out, env, shape);
        }
      } else {
        forall k | 0 <= k < |e.args|
          ensures KeepsTile(A, e.args[k], out, env, shape) <==> KeepsTile(B, e.args[k], out, env, shape)
        {
          SameKept(A, B, e.args[k], out, env, shape);
        }
      }
    }
  }

  lemma {:induction false} SameKept<S(!new)>(A: Arithmetic<S>, B: Arithmetic<S>, e: Expr, out: Name, env: Env,
      shape: Mem<Cells<S>>)
    requires SameRanges(A, B)
    ensures KeepsTile(A, e, out, env, shape) <==> KeepsTile(B, e, out, env, shape)
    decreases e, 1
  {
    SameOthers(A, B, e, out, env, shape);
    SameInside(A, B, e, out, env, shape);
  }

  lemma SameStoreKept<S(!new)>(A: Arithmetic<S>, B: Arithmetic<S>, a: Act, out: Name, shape: Mem<Cells<S>>)
    requires SameRanges(A, B)
    ensures KeepsStore(A, a, out, shape) <==> KeepsStore(B, a, out, shape)
  {
    SameOthers(A, B, a.value, out, a.env, shape);
    SameInside(A, B, a.value, out, a.env, shape);
  }

  /** Every cell of another tensor is its own term; the tensor itself holds the constant. */
  function FreeMem(A: Arithmetic<Term>, shape: Mem<Cells<Term>>, out: Name, s: Term): Mem<Cells<Term>> {
    map n | n in shape :: map p | p in shape[n] :: if n == out then s else Cell(n, p)
  }

  ghost function ConstantTerm(A: Arithmetic<Term>, t: Template): Term
    requires TLoads(t) == {}
  {
    ValueAt(Free(A), t, map[], [])
  }

  lemma FreeOffers(A: Arithmetic<Term>, shape: Mem<Cells<Term>>, out: Name, t: Template)
    requires WellFormed(t) && TLoads(t) == {}
    ensures var mem := FreeMem(A, shape, out, ConstantTerm(A, t));
      OffersConstant(Free(A), mem, out, t) && SameKeys(mem, shape)
    ensures !ConstantTerm(A, t).Cell?
  {
    var mem := FreeMem(A, shape, out, ConstantTerm(A, t));
    ValueAgree(Free(A), t, mem, [], map[], []);
    forall n ensures CellsOf(mem, n).Keys == CellsOf(shape, n).Keys {}
  }

  // ---------------------------------------------------------------------------------------------
  // What it shows

  /** The tiles before and after the replacement, over free arithmetic and memory. */
  function TileBefore(A: Arithmetic<Term>, e: Expr, out: Name, t: Template, env: Env,
      mem: Mem<Cells<Term>>): TileValue<Term>
  {
    ValueOf(Free(A), e, env, mem)
  }
  function TileAfter(A: Arithmetic<Term>, e: Expr, out: Name, t: Template, env: Env,
      mem: Mem<Cells<Term>>): TileValue<Term>
  {
    ValueOf(Free(A), InlineExpr(e, out, t), env, mem)
  }

  ghost predicate FreeCells(A: Arithmetic<Term>, e: Expr, out: Name, env: Env, shape: Mem<Cells<Term>>,
      v: TileValue<Term>, w: TileValue<Term>, q: Coord)
  {
    && (TileHas(v, q) <==> InOthers(Free(A), e, out, env, shape, q) && InReplaced(e, out, env, shape, q))
    && (TileHas(w, q) <==> InOthers(Free(A), e, out, env, shape, q))
    && (Anchored(Free(A), e, out, env) <==> w.Grid?) && (Exposes(e, out) ==> v.Grid?)
  }

  lemma PointwiseFreeCells(A: Arithmetic<Term>, op: Oper, args: seq<Expr>, out: Name, env: Env, shape: Mem<Cells<Term>>,
      vs: seq<TileValue<Term>>, ws: seq<TileValue<Term>>, q: Coord)
    requires IsElementwise(op) && |vs| == |args| == |ws|
    requires forall k :: 0 <= k < |args| ==> FreeCells(A, args[k], out, env, shape, vs[k], ws[k], q)
    ensures FreeCells(A, Op(op, args), out, env, shape, Pointwise(FreeScalar, op, vs), Pointwise(FreeScalar, op, ws), q)
  {
    PointwiseHas(FreeScalar, op, vs, q);
    PointwiseHas(FreeScalar, op, ws, q);
    OperandParts(A, op, args, out, env, shape, q);
    if AllUniform(vs) { assert forall k :: 0 <= k < |args| ==> vs[k].Uniform?; }
    SomeGrid(A, args, out, env, ws);
  }

  lemma SomeGrid(A: Arithmetic<Term>, args: seq<Expr>, out: Name, env: Env, ws: seq<TileValue<Term>>)
    requires |ws| == |args| && forall k :: 0 <= k < |args| ==> (Anchored(Free(A), args[k], out, env) <==> ws[k].Grid?)
    ensures AllUniform(ws) <==> forall k :: 0 <= k < |args| ==> !Anchored(Free(A), args[k], out, env)
  {
  }

  lemma OperandParts(A: Arithmetic<Term>, op: Oper, args: seq<Expr>, out: Name, env: Env, shape: Mem<Cells<Term>>,
      q: Coord)
    requires IsElementwise(op)
    ensures InOthers(Free(A), Op(op, args), out, env, shape, q) <==>
      forall k :: 0 <= k < |args| ==> InOthers(Free(A), args[k], out, env, shape, q)
    ensures InReplaced(Op(op, args), out, env, shape, q) <==>
      forall k :: 0 <= k < |args| ==> InReplaced(args[k], out, env, shape, q)
    ensures Anchored(Free(A), Op(op, args), out, env) <==>
      exists k :: 0 <= k < |args| && Anchored(Free(A), args[k], out, env)
    ensures Exposes(Op(op, args), out) <==> exists k :: 0 <= k < |args| && Exposes(args[k], out)
  {
  }

  /** Operators other than elementwise ones have a value everywhere, so the known operands decide the cells. */
  lemma {:induction false} CellsShown(A: Arithmetic<Term>, e: Expr, out: Name, t: Template, env: Env,
      mem: Mem<Cells<Term>>, shape: Mem<Cells<Term>>, q: Coord)
    requires OffersConstant(Free(A), mem, out, t) && SameKeys(mem, shape)
    ensures FreeCells(A, e, out, env, shape, TileBefore(A, e, out, t, env, mem), TileAfter(A, e, out, t, env, mem), q)
  {
    FreeIsPointwise(A);
    match e
    case Load(n, jx) =>
      if n == out {
        ConstantRead(Free(A), jx, out, t, env, mem, shape);
      } else {
        OtherRead(Free(A), n, jx, env, mem, shape);
      }
    case Const(_) =>
    case Arange(_) =>
    case Op(op, args) =>
      var vs := seq(|args|, k requires 0 <= k < |args| => ValueOf(Free(A), args[k], env, mem));
      var ws := seq(|args|, k requires 0 <= k < |args| => ValueOf(Free(A), InlineExpr(args[k], out, t), env, mem));
      OperandTilesOf(Free(A), op, args, env, mem, vs);
      OperandTilesOf(Free(A), op, InlineExprs(args, out, t), env, mem, ws);
      if IsElementwise(op) {
        forall k | 0 <= k < |args| ensures FreeCells(A, args[k], out, env, shape, vs[k], ws[k], q) {
          CellsShown(A, args[k], out, t, env, mem, shape, q);
        }
        PointwiseFreeCells(A, op, args, out, env, shape, vs, ws, q);
      } else {
        assert FreeCells(A, e, out, env, shape, Uniform(OfTiles(op, vs)), Uniform(OfTiles(op, ws)), q);
      }
  }

  /** Where the tiles show one number at a coordinate, everything inside is kept. */
  lemma {:induction false} InsideShown(A: Arithmetic<Term>, e: Expr, out: Name, t: Template, env: Env,
      mem: Mem<Cells<Term>>, shape: Mem<Cells<Term>>, q: Coord)
    requires OffersConstant(Free(A), mem, out, t) && SameKeys(mem, shape)
    requires var v, w := TileBefore(A, e, out, t, env, mem), TileAfter(A, e, out, t, env, mem);
      TileHas(v, q) && TileHas(w, q) && TileAt(v, q) == TileAt(w, q)
    ensures KeepsInside(Free(A), e, out, env, shape)
    decreases e, 0
  {
    if e.Op? {
      FreeIsPointwise(A);
      var op, args := e.op, e.args;
      var vs := seq(|args|, k requires 0 <= k < |args| => ValueOf(Free(A), args[k], env, mem));
      var ws := seq(|args|, k requires 0 <= k < |args| => ValueOf(Free(A), InlineExpr(args[k], out, t), env, mem));
      OperandTilesOf(Free(A), op, args, env, mem, vs);
      OperandTilesOf(Free(A), op, InlineExprs(args, out, t), env, mem, ws);
      if IsElementwise(op) {
        OperandsShown(op, vs, ws, q);
        forall k | 0 <= k < |args| ensures KeepsInside(Free(A), args[k], out, env, shape) {
          InsideShown(A, args[k], out, t, env, mem, shape, q);
        }
      } else {
        assert FreeApply(op, vs) == Uniform(OfTiles(op, vs)) && FreeApply(op, ws) == Uniform(OfTiles(op, ws));
        assert OfTiles(op, vs).tiles == OfTiles(op, ws).tiles;
        forall k | 0 <= k < |args| ensures KeepsTile(Free(A), args[k], out, env, shape) {
          assert vs[k] == ws[k];
          TileShown(A, args[k], out, t, env, mem, shape);
        }
      }
    }
  }

  /** A number of free arithmetic tells the numbers it was made from. */
  lemma OperandsShown(op: Oper, vs: seq<TileValue<Term>>, ws: seq<TileValue<Term>>, q: Coord)
    requires |vs| == |ws| && TileHas(Pointwise(FreeScalar, op, vs), q) && TileHas(Pointwise(FreeScalar, op, ws), q)
    requires TileAt(Pointwise(FreeScalar, op, vs), q) == TileAt(Pointwise(FreeScalar, op, ws), q)
    ensures forall k :: 0 <= k < |vs| ==> TileHas(vs[k], q) && TileHas(ws[k], q) && TileAt(vs[k], q) == TileAt(ws[k], q)
  {
    PointwiseHas(FreeScalar, op, vs, q);
    PointwiseHas(FreeScalar, op, ws, q);
    var xs, ys := NumbersAt(vs, q), NumbersAt(ws, q);
    assert Scalar(op, xs) == Scalar(op, ys);
    forall k | 0 <= k < |vs| ensures TileAt(vs[k], q) == TileAt(ws[k], q) { assert xs[k] == ys[k]; }
  }

  /** An operand whose tile stays is one that keeps its tile. */
  lemma {:induction false} TileShown(A: Arithmetic<Term>, e: Expr, out: Name, t: Template, env: Env,
      mem: Mem<Cells<Term>>, shape: Mem<Cells<Term>>)
    requires OffersConstant(Free(A), mem, out, t) && SameKeys(mem, shape)
    requires TileBefore(A, e, out, t, env, mem) == TileAfter(A, e, out, t, env, mem)
    ensures KeepsTile(Free(A), e, out, env, shape)
    decreases e, 1
  {
    var v := TileBefore(A, e, out, t, env, mem);
    forall q ensures FreeCells(A, e, out, env, shape, v, v, q) { CellsShown(A, e, out, t, env, mem, shape, q); }
    assert FreeCells(A, e, out, env, shape, v, v, []);
    if Shows(Free(A), e, out, env, shape) {
      var q: Coord := if Anchored(Free(A), e, out, env) then ShownAt(A, e, out, env, shape) else [];
      assert FreeCells(A, e, out, env, shape, v, v, q);
      InsideShown(A, e, out, t, env, mem, shape, q);
    }
    forall q | Exposes(e, out) && InOthers(Free(A), e, out, env, shape, q) ensures InReplaced(e, out, env, shape, q) {
      assert FreeCells(A, e, out, env, shape, v, v, q);
    }
  }

  ghost function ShownAt(A: Arithmetic<Term>, e: Expr, out: Name, env: Env, shape: Mem<Cells<Term>>): (q: Coord)
    requires Shows(Free(A), e, out, env, shape) && Anchored(Free(A), e, out, env)
    ensures InOthers(Free(A), e, out, env, shape, q)
  {
    var q :| InOthers(Free(A), e, out, env, shape, q);
    q
  }

  /** No constant, and no result of an operator, is the old contents of a cell. */
  lemma NotOldContents(A: Arithmetic<Term>, e: Expr, out: Name, t: Template, env: Env, mem: Mem<Cells<Term>>,
      shape: Mem<Cells<Term>>, q: Coord)
    requires OffersConstant(Free(A), mem, out, t) && SameKeys(mem, shape) && Exposes(e, out) &&
      TileHas(TileAfter(A, e, out, t, env, mem), q)
    ensures !TileAt(TileAfter(A, e, out, t, env, mem), q).Cell?
  {
    FreeIsPointwise(A);
    match e
    case Load(n, jx) => ConstantRead(Free(A), jx, out, t, env, mem, shape);
    case Op(op, args) =>
      var ws := seq(|args|, k requires 0 <= k < |args| => ValueOf(Free(A), InlineExpr(args[k], out, t), env, mem));
      OperandTilesOf(Free(A), op, InlineExprs(args, out, t), env, mem, ws);
      PointwiseHas(FreeScalar, op, ws, q);
  }

  // ---------------------------------------------------------------------------------------------
  // The exact condition

  /** The store does the same after the replacement. */
  ghost predicate SameEffect<S>(A: Arithmetic<S>, a: Act, out: Name, t: Template, mem: Mem<Cells<S>>) {
    Step(A.Machine(), InlineAct(a, out, t), mem) == Step(A.Machine(), a, mem)
  }

  /** What is written shows the tiles: the new number, or the old contents where the tile has none. */
  lemma WrittenShown(A: Arithmetic<Term>, a: Act, out: Name, t: Template, mem: Mem<Cells<Term>>,
      shape: Mem<Cells<Term>>, q: Coord)
    requires SameEffect(Free(A), a, out, t, mem) && SameKeys(mem, shape) &&
      q in RegionCoords(KeysOf(shape, a.tensor), a.Where())
    ensures Absolute(a.Where(), q) in CellsOf(mem, a.tensor)
    ensures var v, w := TileBefore(A, a.value, out, t, a.env, mem), TileAfter(A, a.value, out, t, a.env, mem);
      var old' := CellsOf(mem, a.tensor)[Absolute(a.Where(), q)];
      (if TileHas(v, q) then TileAt(v, q) else old') == (if TileHas(w, q) then TileAt(w, q) else old')
  {
    var r, c := a.Where(), CellsOf(mem, a.tensor);
    var p := Absolute(r, q);
    AbsoluteRelative(r, q);
    var v, w := TileBefore(A, a.value, out, t, a.env, mem), TileAfter(A, a.value, out, t, a.env, mem);
    assert Get(Free(A).Machine(), mem, a.tensor) == c;
    assert Step(Free(A).Machine(), a, mem)[a.tensor] == WriteCells(c, r, v);
    assert Step(Free(A).Machine(), InlineAct(a, out, t), mem)[a.tensor] == WriteCells(c, r, w);
    assert WriteCells(c, r, v)[p] == WriteCells(c, r, w)[p];
  }

  /** Over free arithmetic and memory only a store that keeps what it writes does the same. */
  lemma EffectShows(A: Arithmetic<Term>, a: Act, out: Name, t: Template, shape: Mem<Cells<Term>>)
    requires WellFormed(t) && TLoads(t) == {} && a.tensor != out
    requires SameEffect(Free(A), a, out, t, FreeMem(A, shape, out, ConstantTerm(A, t)))
    ensures KeepsStore(Free(A), a, out, shape)
  {
    var mem := FreeMem(A, shape, out, ConstantTerm(A, t));
    FreeOffers(A, shape, out, t);
    var cells := RegionCoords(KeysOf(shape, a.tensor), a.Where());
    forall q | q in cells && InOthers(Free(A), a.value, out, a.env, shape, q)
      ensures InReplaced(a.value, out, a.env, shape, q) && KeepsInside(Free(A), a.value, out, a.env, shape)
    {
      CellShown(A, a, out, t, mem, shape, q);
    }
  }

  lemma CellShown(A: Arithmetic<Term>, a: Act, out: Name, t: Template, mem: Mem<Cells<Term>>, shape: Mem<Cells<Term>>,
      q: Coord)
    requires OffersConstant(Free(A), mem, out, t) && SameKeys(mem, shape) && a.tensor != out
    requires TLoads(t) == {} && mem == FreeMem(A, shape, out, ConstantTerm(A, t)) && SameEffect(Free(A), a, out, t, mem)
    requires q in RegionCoords(KeysOf(shape, a.tensor), a.Where()) && InOthers(Free(A), a.value, out, a.env, shape, q)
    ensures InReplaced(a.value, out, a.env, shape, q) && KeepsInside(Free(A), a.value, out, a.env, shape)
  {
    CellsShown(A, a.value, out, t, a.env, mem, shape, q);
    WrittenShown(A, a, out, t, mem, shape, q);
    if Exposes(a.value, out) { NotOldContents(A, a.value, out, t, a.env, mem, shape, q); }
    else { NotExposed(a.value, out, a.env, shape, q); }
    InsideShown(A, a.value, out, t, a.env, mem, shape, q);
  }

  lemma {:induction false} NotExposed<S>(e: Expr, out: Name, env: Env, shape: Mem<Cells<S>>, q: Coord)
    requires !Exposes(e, out)
    ensures InReplaced(e, out, env, shape, q)
  {
    if e.Op? && IsElementwise(e.op) {
      forall k | 0 <= k < |e.args|
        ensures InReplaced(e.args[k], out, env, shape, q)
      {
        NotExposed(e.args[k], out, env, shape, q);
      }
    }
  }

  /** Putting a constant in place of the loads of a tensor that holds it leaves what a store does, whatever
      the operators mean and the memory holds, exactly when the store keeps what it writes: the tensor
      covers the cells that the other operands leave, and no operand of an operator that is not
      elementwise is left without known cells or with others. */
  lemma ConstantExact(A: Arithmetic<Term>, a: Act, out: Name, t: Template, shape: Mem<Cells<Term>>)
    requires WellFormed(t) && TLoads(t) == {} && a.tensor != out
    ensures (forall B: Arithmetic<Term>, mem: Mem<Cells<Term>> ::
        PointwiseArithmetic(B) && SameRanges(B, A) && SameKeys(mem, shape) && OffersConstant(B, mem, out, t) ==>
          SameEffect(B, a, out, t, mem)) <==>
      KeepsStore(A, a, out, shape)
  {
    if KeepsStore(A, a, out, shape) {
      forall B: Arithmetic<Term>, mem: Mem<Cells<Term>> | PointwiseArithmetic(B) && SameRanges(B, A) &&
        SameKeys(mem, shape) && OffersConstant(B, mem, out, t)
        ensures SameEffect(B, a, out, t, mem)
      {
        SameStoreKept(B, A, a, out, shape);
        ConstantStep(B, a, out, t, mem, shape);
      }
    } else {
      var mem := FreeMem(A, shape, out, ConstantTerm(A, t));
      FreeIsPointwise(A);
      FreeRanges(A);
      FreeOffers(A, shape, out, t);
      SameStoreKept(Free(A), A, a, out, shape);
      if SameEffect(Free(A), a, out, t, mem) {
        EffectShows(A, a, out, t, shape);
        assert false;
      }
    }
  }

  // ---------------------------------------------------------------------------------------------
  // An input that changes

  const ONES := Store("t", Const("1"), [FullTile])
  const SUM := Store("o", Op(ReduceSum(0), [Load("t", [FullTile])]), [FullTile])
  const SUMMED := Store("o", Op(ReduceSum(0), [Const("1")]), [FullTile])

  function OneOf(text: string): int { 1 }
  function OneSize(tile: string): pos { 1 }
  function NoRange(lo: int, n: int): TileValue<int> { Uniform(0) }
  function Added(op: Oper, xs: seq<int>): int { if xs == [] then 0 else xs[0] + Added(op, xs[1..]) }

  /** The sum over a tile of two cells; of a number, which has no cells of its own, the number. */
  function SumApply(op: Oper, vs: seq<TileValue<int>>): TileValue<int> {
    if IsElementwise(op) then Pointwise(Added, op, vs)
    else if |vs| == 1 && vs[0].Grid? && [0] in vs[0].cells && [1] in vs[0].cells then
      Uniform(vs[0].cells[[0]] + vs[0].cells[[1]])
    else if |vs| == 1 then vs[0]
    else Uniform(0)
  }

  function Sums(): Arithmetic<int> { Arithmetic(OneSize, OneOf, NoRange, SumApply, Added) }

  lemma SumIsInlined()
    ensures InlineFrom([Call(ONES, "t"), Call(SUM, "o")], 0, {"o"}) == Inlined([Call(SUMMED, "o")])
  {
    var calls := [Call(ONES, "t"), Call(SUM, "o")];
    var load := Load("t", [FullTile]);
    assert SUM.value.args == [load];
    assert load in SUM.value.args && "t" in Loads(load);
    assert calls[1].root == SUM && "t" in StmtLoads(SUM);
    assert Producer(calls[0], {"o"}) == Some(TConst("1"));
    assert [load][1..] == [];
    assert InlineExprs([load], "t", TConst("1")) == [Const("1")];
    assert InlineStmt(SUM, "t", TConst("1")) == SUMMED;
    var after := Replaced(calls, 0, TConst("1"));
    assert after == [Call(ONES, "t"), Call(SUMMED, "o")];
    assert SUMMED.value.args == [Const("1")];
    assert StmtLoads(SUMMED) == {};
    assert !Unbuildable(load) && !Unbuildable(SUM.value);
    assert !Fails(calls, 0, 2);
    assert Without(after, 0) == [Call(SUMMED, "o")];
  }

  /** A tensor of two cells, and the output with one. */
  ghost predicate TwoAndOne(mem: Mem<Cells<int>>) { KeysOf(mem, "t") == {[0], [1]} && [0] in CellsOf(mem, "o") }

  lemma WholeRegion(c: Cells<int>, x: int)
    ensures WriteCells(c, [Full], Uniform(x)) == map p | p in c :: if |p| == 1 then x else c[p]
  {
    forall p | p in c ensures InRegion([Full], p) <==> |p| == 1 {}
  }

  lemma RunsOne(mem: Mem<Cells<int>>, t: Name, e: Expr, x: int)
    requires ValueOf(Sums(), e, map[], mem) == Uniform(x)
    ensures Exec(Sums().Machine(), Store(t, e, [FullTile]), map[], mem) ==
      mem[t := map p | p in CellsOf(mem, t) :: if |p| == 1 then x else CellsOf(mem, t)[p]]
  {
    assert ResolveAll([FullTile], map[]) == [Full];
    assert Get(Sums().Machine(), mem, t) == CellsOf(mem, t);
    WholeRegion(CellsOf(mem, t), x);
  }

  lemma ReadsTwo(mem: Mem<Cells<int>>, v: TileValue<int>)
    requires CellsOf(mem, "t") == map[[0] := 1, [1] := 1] && v == ReadCells(CellsOf(mem, "t"), [Full])
    ensures ValueOf(Sums(), Load("t", [FullTile]), map[], mem) == v && SumApply(ReduceSum(0), [v]) == Uniform(2)
  {
    ReadsWhole(mem, "t");
    TwoOnes(CellsOf(mem, "t"), v);
  }

  lemma ReadsWhole(mem: Mem<Cells<int>>, t: Name)
    ensures ValueOf(Sums(), Load(t, [FullTile]), map[], mem) == ReadCells(CellsOf(mem, t), [Full])
  {
    assert ResolveAll([FullTile], map[]) == [Full];
    assert Get(Sums().Machine(), mem, t) == CellsOf(mem, t);
  }

  lemma TwoOnes(c: Cells<int>, v: TileValue<int>)
    requires c == map[[0] := 1, [1] := 1] && v == ReadCells(c, [Full])
    ensures SumApply(ReduceSum(0), [v]) == Uniform(2)
  {
    var whole: Region := [Full];
    assert Absolute(whole, [0]) == [0] && Absolute(whole, [1]) == [1];
  }

  lemma SumOf(op: Oper, operand: Expr, mem: Mem<Cells<int>>, v: TileValue<int>)
    requires v == ValueOf(Sums(), operand, map[], mem)
    ensures ValueOf(Sums(), Op(op, [operand]), map[], mem) == SumApply(op, [v])
  {
    assert EvalAll(Sums().Machine(), [operand], map[], mem) == [v];
  }

  /** The producer covers its tensor and the arithmetic is pointwise, but the sum of a tensor of two ones
      becomes the sum of one number: the output is 2 before the pass and 1 after it. */
  lemma ConstantOperandInput(mem: Mem<Cells<int>>)
    requires TwoAndOne(mem)
    ensures PointwiseArithmetic(Sums()) && Covers(OneSize, ONES, KeysOf(mem, "t"))
    ensures InlineFrom([Call(ONES, "t"), Call(SUM, "o")], 0, {"o"}) == Inlined([Call(SUMMED, "o")])
    ensures var before, after :=
      RunCalls(Sums().Machine(), [Call(ONES, "t"), Call(SUM, "o")], mem),
      RunCalls(Sums().Machine(), [Call(SUMMED, "o")], mem);
      && [0] in CellsOf(before, "o") && CellsOf(before, "o")[[0]] == 2
      && [0] in CellsOf(after, "o") && CellsOf(after, "o")[[0]] == 1
  {
    SumIsInlined();
    OnesCover(KeysOf(mem, "t"));
    SumBefore(mem);
    SumAfter(mem);
  }

  lemma SumBefore(mem: Mem<Cells<int>>)
    requires TwoAndOne(mem)
    ensures var c := CellsOf(RunCalls(Sums().Machine(), [Call(ONES, "t"), Call(SUM, "o")], mem), "o");
      [0] in c && c[[0]] == 2
  {
    var M := Sums().Machine();
    var m1 := Exec(M, ONES, map[], mem);
    RunsOne(mem, "t", Const("1"), 1);
    assert CellsOf(m1, "t") == map[[0] := 1, [1] := 1] && CellsOf(m1, "o") == CellsOf(mem, "o");
    TwoCalls(M, Call(ONES, "t"), Call(SUM, "o"), mem);
    SumDone(m1, Load("t", [FullTile]));
  }

  lemma SumDone(mem: Mem<Cells<int>>, load: Expr)
    requires CellsOf(mem, "t") == map[[0] := 1, [1] := 1] && [0] in CellsOf(mem, "o") && load == Load("t", [FullTile])
    ensures var c := CellsOf(Exec(Sums().Machine(), Store("o", Op(ReduceSum(0), [load]), [FullTile]), map[], mem), "o");
      [0] in c && c[[0]] == 2
  {
    var v := ReadCells(CellsOf(mem, "t"), [Full]);
    ReadsTwo(mem, v);
    SumOf(ReduceSum(0), load, mem, v);
    RunsOne(mem, "o", Op(ReduceSum(0), [load]), 2);
  }

  lemma SumAfter(mem: Mem<Cells<int>>)
    requires TwoAndOne(mem)
    ensures var c := CellsOf(RunCalls(Sums().Machine(), [Call(SUMMED, "o")], mem), "o"); [0] in c && c[[0]] == 1
  {
    SumOf(ReduceSum(0), Const("1"), mem, Uniform(1));
    RunsOne(mem, "o", SUMMED.value, 1);
    OneCall(Sums().Machine(), Call(SUMMED, "o"), mem);
  }

  lemma OnesCover(shape: set<Coord>)
    requires shape == {[0], [1]}
    ensures Covers(OneSize, ONES, shape)
  {
    var a := Act("t", Const("1"), [FullTile], map[]);
    assert Trace(OneSize, ONES, map[]) == [a] && a in [a];
    assert a.Where() == [Full];
  }

  lemma OneCall<C, V>(M: Machine<C, V>, c: Call, mem: Mem<C>)
    ensures RunCalls(M, [c], mem) == Exec(M, c.root, map[], mem)
  {
    assert RunCalls(M, [c], mem) == RunCalls(M, [c][1..], Exec(M, c.root, map[], mem));
  }

  lemma TwoCalls<C, V>(M: Machine<C, V>, c: Call, d: Call, mem: Mem<C>)
    ensures RunCalls(M, [c, d], mem) == Exec(M, d.root, map[], Exec(M, c.root, map[], mem))
  {
    assert [c, d][1..] == [d];
    OneCall(M, d, Exec(M, c.root, map[], mem));
  }
}
