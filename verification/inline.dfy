/** Inlining elementwise producers into their consumers (`inline_elementwise_op_calls`). */
module Inlining {
  import opened Ast
  import opened Machines
  import opened Reordering
  import opened Elements

  // ---------------------------------------------------------------------------------------------
  // The pass

  /** An elementwise expression with the index left open. */
  datatype Template = TLoad(name: Name) | TConst(text: string) | TOp(op: Oper, args: seq<Template>)

  predicate IsBinary(op: Oper) {
    op.Add? || op.Sub? || op.Mul? || op.Div? || op.Max? || op.Min? || op.GenericBinary?
  }

  predicate IsUnary(op: Oper) {
    op.Exp? || op.Sqr? || op.Sqrt? || op.Sigmoid? || op.Cast? ||
      (op.GenericCall? && (op.func == "erf" || op.func == "abs"))
  }

  predicate IsElementwise(op: Oper) { IsBinary(op) || IsUnary(op) }

  predicate ContainsExp(e: Expr) {
    e.Op? && (e.op.Exp? || exists a :: a in e.args && ContainsExp(a))
  }

  /** `visit`: the template of an expression whose loads are all at the store's own index. */
  function Extract(e: Expr, ix: Index): Option<Template>
    decreases e, 1
  {
    match e
    case Load(t, jx) => if jx == ix then Some(TLoad(t)) else None
    case Const(c) => Some(TConst(c))
    case Arange(_) => None
    case Op(op, args) =>
      if (IsBinary(op) && |args| == 2) || (IsUnary(op) && |args| == 1) then
        match ExtractAll(args, ix)
        case Some(ts) => Some(TOp(op, ts))
        case None => None
      else None
  }

  function ExtractAll(args: seq<Expr>, ix: Index): (r: Option<seq<Template>>)
    ensures r.Some? ==> |r.value| == |args| && forall k :: 0 <= k < |args| ==> Extract(args[k], ix) == Some(r.value[k])
    ensures r.None? ==> exists k :: 0 <= k < |args| && Extract(args[k], ix) == None
    decreases args, 0
  {
    if args == [] then Some([])
    else
      match (Extract(args[0], ix), ExtractAll(args[1..], ix))
      case (Some(t), Some(ts)) => Some([t] + ts)
      case (_, _) => None
  }

  /** `_build_expr`. */
  function Build(t: Template, ix: Index): Expr
    decreases t, 1
  {
    match t
    case TLoad(n) => Load(n, ix)
    case TConst(c) => Const(c)
    case TOp(op, ts) => Op(op, BuildAll(ts, ix))
  }

  function BuildAll(ts: seq<Template>, ix: Index): (r: seq<Expr>)
    ensures |r| == |ts| && forall k :: 0 <= k < |ts| ==> r[k] == Build(ts[k], ix)
    decreases ts, 0
  {
    if ts == [] then [] else [Build(ts[0], ix)] + BuildAll(ts[1..], ix)
  }

  /** `_inline_loads_with_elementwise`. */
  function InlineExpr(e: Expr, out: Name, t: Template): Expr
    decreases e, 1
  {
    match e
    case Load(n, jx) => if n == out then Build(t, jx) else e
    case Const(_) => e
    case Arange(_) => e
    case Op(op, args) => Op(op, InlineExprs(args, out, t))
  }

  function InlineExprs(args: seq<Expr>, out: Name, t: Template): (r: seq<Expr>)
    ensures |r| == |args| && forall k :: 0 <= k < |args| ==> r[k] == InlineExpr(args[k], out, t)
    decreases args, 0
  {
    if args == [] then [] else [InlineExpr(args[0], out, t)] + InlineExprs(args[1..], out, t)
  }

  function InlineStmt(s: Stmt, out: Name, t: Template): Stmt
    decreases s, 1
  {
    match s
    case Store(n, v, ix) => Store(n, InlineExpr(v, out, t), ix)
    case Loop(lo, hi, tile, x, b) => Loop(lo, hi, tile, x, InlineStmt(b, out, t))
    case Seq(l, r) => Seq(InlineStmt(l, out, t), InlineStmt(r, out, t))
    case Block(ss) => Block(InlineStmts(ss, out, t))
  }

  function InlineStmts(ss: seq<Stmt>, out: Name, t: Template): (r: seq<Stmt>)
    ensures |r| == |ss| && forall k :: 0 <= k < |ss| ==> r[k] == InlineStmt(ss[k], out, t)
    decreases ss, 0
  {
    if ss == [] then [] else [InlineStmt(ss[0], out, t)] + InlineStmts(ss[1..], out, t)
  }

  /** `_extract_single_store`: the store of a nest that has only one. */
  function SingleStore(s: Stmt): (r: Option<Stmt>)
    ensures r.Some? ==> r.value.Store?
  {
    match s
    case Store(_, _, _) => Some(s)
    case Seq(_, _) => None
    case Loop(_, _, _, _, b) => SingleStore(b)
    case Block(ss) => if |ss| == 1 then SingleStore(ss[0]) else None
  }

  /** The template a call offers for inlining. */
  function Producer(c: Call, outputs: set<Name>): Option<Template> {
    match SingleStore(c.root)
    case None => None
    case Some(store) =>
      if store.tensor == c.out && store.tensor !in outputs && !ContainsExp(store.value) then
        Extract(store.value, store.index)
      else None
  }

  predicate LoadedAfter(calls: seq<Call>, i: nat, out: Name) {
    exists j :: i < j < |calls| && out in StmtLoads(calls[j].root)
  }

  /** The consumers after call i with the template in place of the loads. */
  function Replaced(calls: seq<Call>, i: nat, t: Template): (r: seq<Call>)
    requires i < |calls|
    ensures |r| == |calls|
  {
    seq(|calls|, j requires 0 <= j < |calls| =>
      if i < j && calls[i].out in StmtLoads(calls[j].root)
      then Call(InlineStmt(calls[j].root, calls[i].out, t), calls[j].out)
      else calls[j])
  }

  function Without(calls: seq<Call>, i: nat): seq<Call>
    requires i < |calls|
  {
    calls[..i] + calls[i + 1..]
  }

  /** A generic binary operator is rebuilt without its name, which is an error. */
  predicate Unbuildable(e: Expr) {
    e.Op? && (e.op.GenericBinary? || exists k :: 0 <= k < |e.args| && Unbuildable(e.args[k]))
  }

  predicate StmtUnbuildable(s: Stmt) {
    match s
    case Store(_, v, _) => Unbuildable(v)
    case Loop(_, _, _, _, b) => StmtUnbuildable(b)
    case Seq(l, r) => StmtUnbuildable(l) || StmtUnbuildable(r)
    case Block(ss) => exists k :: 0 <= k < |ss| && StmtUnbuildable(ss[k])
  }

  /** A call between i and j that loads the tensor cannot be rebuilt. */
  predicate Fails(calls: seq<Call>, i: nat, j: nat)
    requires i < |calls| && j <= |calls|
  {
    exists k :: i < k < j && calls[i].out in StmtLoads(calls[k].root) && StmtUnbuildable(calls[k].root)
  }

  datatype Outcome = Inlined(calls: seq<Call>) | Failed

  /** The whole worklist from call i on. */
  function InlineFrom(calls: seq<Call>, i: nat, outputs: set<Name>): Outcome
    decreases |calls| - i
  {
    if i + 1 >= |calls| then Inlined(calls)
    else
      match Producer(calls[i], outputs)
      case None => InlineFrom(calls, i + 1, outputs)
      case Some(t) =>
        if !LoadedAfter(calls, i, calls[i].out) then InlineFrom(calls, i + 1, outputs)
        else if Fails(calls, i, |calls|) then Failed
        else
          var calls' := Replaced(calls, i, t);
          if calls' != calls && !LoadedAfter(calls', i, calls[i].out) then InlineFrom(Without(calls', i), i, outputs)
          else InlineFrom(calls', i + 1, outputs)
  }

  /** The loop over the later calls: the template in place of the loads, unless a call cannot be rebuilt. */
  method ReplaceConsumers(before: seq<Call>, i: nat, t: Template)
      returns (calls: seq<Call>, replacedAny: bool, failed: bool)
    requires i < |before|
    ensures failed == Fails(before, i, |before|)
    ensures !failed ==> calls == Replaced(before, i, t) && replacedAny == (calls != before)
  {
    calls, replacedAny, failed := before, false, false;
    for j := i + 1 to |before|
      invariant |calls| == |before| && !Fails(before, i, j)
      invariant forall k :: 0 <= k < |calls| ==> calls[k] == if k < j then Replaced(before, i, t)[k] else before[k]
      invariant replacedAny <==> exists k :: 0 <= k < j && calls[k] != before[k]
    {
      if before[i].out in StmtLoads(calls[j].root) {
        if StmtUnbuildable(calls[j].root) { return calls, replacedAny, true; }
        var newRoot := InlineStmt(calls[j].root, before[i].out, t);
        if newRoot != calls[j].root {
          replacedAny := true;
          calls := calls[j := Call(newRoot, calls[j].out)];
        }
      }
    }
  }

  /** The pass as written: a worklist over a list that shrinks. */
  method InlineElementwiseCalls(input: seq<Call>, outputs: set<Name>) returns (r: Outcome)
    ensures r == InlineFrom(input, 0, outputs)
  {
    var calls := input;
    var i := 0;
    while i + 1 < |calls|
      invariant i <= |calls|
      invariant InlineFrom(calls, i, outputs) == InlineFrom(input, 0, outputs)
      decreases |calls| - i
    {
      var offered := Producer(calls[i], outputs);
      if offered == None || !LoadedAfter(calls, i, calls[i].out) {
        i := i + 1;
        continue;
      }
      var out := calls[i].out;
      var after, replacedAny, failed := ReplaceConsumers(calls, i, offered.value);
      if failed { return Failed; }
      calls := after;
      if replacedAny && !LoadedAfter(calls, i, out) {
        calls := Without(calls, i);
        continue;
      }
      i := i + 1;
    }
    r := Inlined(calls);
  }

  // ---------------------------------------------------------------------------------------------
  // Pointwise arithmetic

  /** Where every operand that has cells has one. */
  function CommonCoords<S>(vs: seq<TileValue<S>>): set<Coord> {
    set k, q | 0 <= k < |vs| && vs[k].Grid? && q in vs[k].cells &&
      (forall j :: 0 <= j < |vs| && vs[j].Grid? ==> q in vs[j].cells) :: q
  }

  predicate AllUniform<S>(vs: seq<TileValue<S>>) {
    forall k :: 0 <= k < |vs| ==> vs[k].Uniform?
  }

  function ValuesAt<S>(vs: seq<TileValue<S>>, q: Coord): seq<S>
    requires forall k :: 0 <= k < |vs| && vs[k].Grid? ==> q in vs[k].cells
  {
    seq(|vs|, k requires 0 <= k < |vs| => if vs[k].Uniform? then vs[k].s else vs[k].cells[q])
  }

  function Pointwise<S>(f: (Oper, seq<S>) -> S, op: Oper, vs: seq<TileValue<S>>): TileValue<S> {
    if AllUniform(vs) then Uniform(f(op, ValuesAt(vs, [])))
    else Grid(map q | q in CommonCoords(vs) :: f(op, ValuesAt(vs, q)))
  }

  ghost predicate PointwiseArithmetic<S(!new)>(A: Arithmetic<S>) {
    forall op, vs :: IsElementwise(op) ==> A.apply(op, vs) == Pointwise(A.scalar, op, vs)
  }

  function CellsOf<S>(mem: Mem<Cells<S>>, n: Name): Cells<S> {
    if n in mem then mem[n] else map[]
  }

  function TLoads(t: Template): set<Name> {
    match t
    case TLoad(n) => {n}
    case TConst(_) => {}
    case TOp(_, ts) => set a, n | a in ts && n in TLoads(a) :: n
  }

  predicate WellFormed(t: Template) {
    t.TOp? ==> IsElementwise(t.op) && forall a :: a in t.args ==> WellFormed(a)
  }

  ghost predicate DefinedAt<S>(names: set<Name>, mem: Mem<Cells<S>>, p: Coord) {
    forall n :: n in names ==> p in CellsOf(mem, n)
  }

  /** The value of a template at one absolute coordinate. */
  ghost function ValueAt<S>(A: Arithmetic<S>, t: Template, mem: Mem<Cells<S>>, p: Coord): S
    requires DefinedAt(TLoads(t), mem, p)
    decreases t, 1
  {
    match t
    case TLoad(n) => assert n in TLoads(t); CellsOf(mem, n)[p]
    case TConst(c) => A.lit(c)
    case TOp(op, ts) =>
      assert forall a, n :: a in ts && n in TLoads(a) ==> n in TLoads(t);
      A.scalar(op, ValuesOf(A, ts, mem, p))
  }

  ghost function ValuesOf<S>(A: Arithmetic<S>, ts: seq<Template>, mem: Mem<Cells<S>>, p: Coord): (vs: seq<S>)
    requires forall k :: 0 <= k < |ts| ==> DefinedAt(TLoads(ts[k]), mem, p)
    ensures |vs| == |ts| && forall k :: 0 <= k < |ts| ==> vs[k] == ValueAt(A, ts[k], mem, p)
    decreases ts, 0
  {
    if ts == [] then [] else [ValueAt(A, ts[0], mem, p)] + ValuesOf(A, ts[1..], mem, p)
  }

  /** A template's value depends only on the cells it loads at that coordinate. */
  lemma {:induction false} ValueAgree<S>(A: Arithmetic<S>, t: Template, m1: Mem<Cells<S>>, p1: Coord, m2: Mem<Cells<S>>,
      p2: Coord)
    requires DefinedAt(TLoads(t), m1, p1) && DefinedAt(TLoads(t), m2, p2)
    requires forall n :: n in TLoads(t) ==> CellsOf(m1, n)[p1] == CellsOf(m2, n)[p2]
    ensures ValueAt(A, t, m1, p1) == ValueAt(A, t, m2, p2)
  {
    if t.TOp? {
      forall k | 0 <= k < |t.args|
        ensures DefinedAt(TLoads(t.args[k]), m1, p1) && DefinedAt(TLoads(t.args[k]), m2, p2) &&
        ValueAt(A, t.args[k], m1, p1) == ValueAt(A, t.args[k], m2, p2)
      {
        assert forall n :: n in TLoads(t.args[k]) ==> n in TLoads(t);
        ValueAgree(A, t.args[k], m1, p1, m2, p2);
      }
      assert ValuesOf(A, t.args, m1, p1) == ValuesOf(A, t.args, m2, p2);
    }
  }

  ghost predicate Shaped<S>(names: set<Name>, mem: Mem<Cells<S>>, shape: set<Coord>) {
    forall n :: n in names ==> CellsOf(mem, n).Keys == shape
  }

  /** The tile a template has over a region of tensors with the given shape. */
  ghost function TileOf<S>(A: Arithmetic<S>, t: Template, mem: Mem<Cells<S>>, shape: set<Coord>,
      r: Region): TileValue<S>
    requires Shaped(TLoads(t), mem, shape)
  {
    if TLoads(t) == {} then Uniform(ValueAt(A, t, mem, []))
    else Grid(map q | q in RegionCoords(shape, r) :: ValueAt(A, t, mem, Absolute(r, q)))
  }

  /** Evaluating a template at any index gives the template's value cell by cell. */
  lemma {:induction false} EvalBuild<S(!new)>(A: Arithmetic<S>, t: Template, ix: Index, env: Env, mem: Mem<Cells<S>>,
      shape: set<Coord>)
    requires PointwiseArithmetic(A) && WellFormed(t)
    requires Shaped(TLoads(t), mem, shape)
    ensures Eval(A.Machine(), Build(t, ix), env, mem) == TileOf(A, t, mem, shape, ResolveAll(ix, env))
  {
    var M, r := A.Machine(), ResolveAll(ix, env);
    match t
    case TLoad(n) =>
      assert n in TLoads(t);
      assert CellsOf(mem, n) == Get(M, mem, n);
    case TConst(c) =>
    case TOp(op, ts) =>
      var vs := EvalAll(M, BuildAll(ts, ix), env, mem);
      forall k | 0 <= k < |ts|
        ensures Shaped(TLoads(ts[k]), mem, shape) && vs[k] == TileOf(A, ts[k], mem, shape, r)
      {
        assert forall n :: n in TLoads(ts[k]) ==> n in TLoads(t);
        EvalBuild(A, ts[k], ix, env, mem, shape);
      }
      PointwiseTiles(A, op, ts, mem, shape, r, vs);
  }

  /** Operand tiles of an operator template. */
  ghost predicate OperandTiles<S>(A: Arithmetic<S>, ts: seq<Template>, mem: Mem<Cells<S>>, shape: set<Coord>, r: Region,
      vs: seq<TileValue<S>>)
  {
    && |vs| == |ts|
    && (forall k :: 0 <= k < |ts| ==> Shaped(TLoads(ts[k]), mem, shape))
    && (forall k :: 0 <= k < |ts| ==> vs[k] == TileOf(A, ts[k], mem, shape, r))
  }

  lemma OperandCoords<S>(A: Arithmetic<S>, ts: seq<Template>, mem: Mem<Cells<S>>, shape: set<Coord>, r: Region,
      vs: seq<TileValue<S>>, k0: nat)
    requires OperandTiles(A, ts, mem, shape, r, vs) && k0 < |ts| && TLoads(ts[k0]) != {}
    ensures !AllUniform(vs) && CommonCoords(vs) == RegionCoords(shape, r)
    ensures forall k :: 0 <= k < |vs| && vs[k].Grid? ==> vs[k].cells.Keys == RegionCoords(shape, r)
  {
    assert vs[k0].Grid?;
    forall k | 0 <= k < |vs| && vs[k].Grid? ensures vs[k].cells.Keys == RegionCoords(shape, r) {
      assert vs[k] == TileOf(A, ts[k], mem, shape, r);
    }
    assert vs[k0].cells.Keys == RegionCoords(shape, r);
  }

  lemma OperandValues<S>(A: Arithmetic<S>, ts: seq<Template>, mem: Mem<Cells<S>>, shape: set<Coord>, r: Region,
      vs: seq<TileValue<S>>, q: Coord)
    requires OperandTiles(A, ts, mem, shape, r, vs) && q in RegionCoords(shape, r)
    requires forall k :: 0 <= k < |vs| && vs[k].Grid? ==> q in vs[k].cells
    ensures forall k :: 0 <= k < |ts| ==> DefinedAt(TLoads(ts[k]), mem, Absolute(r, q))
    ensures ValuesAt(vs, q) == ValuesOf(A, ts, mem, Absolute(r, q))
  {
    var p := Absolute(r, q);
    forall k | 0 <= k < |ts|
      ensures DefinedAt(TLoads(ts[k]), mem, p) && ValuesAt(vs, q)[k] == ValueAt(A, ts[k], mem, p)
    {
      assert vs[k] == TileOf(A, ts[k], mem, shape, r);
      if TLoads(ts[k]) == {} { ValueAgree(A, ts[k], mem, p, mem, []); }
    }
  }

  lemma UniformOperands<S(!new)>(A: Arithmetic<S>, op: Oper, ts: seq<Template>, mem: Mem<Cells<S>>, shape: set<Coord>,
      r: Region, vs: seq<TileValue<S>>)
    requires OperandTiles(A, ts, mem, shape, r, vs) && TLoads(TOp(op, ts)) == {}
    ensures Pointwise(A.scalar, op, vs) == TileOf(A, TOp(op, ts), mem, shape, r)
  {
    forall k | 0 <= k < |ts| ensures TLoads(ts[k]) == {} && vs[k].Uniform? && DefinedAt(TLoads(ts[k]), mem, []) {
      assert forall n :: n in TLoads(ts[k]) ==> n in TLoads(TOp(op, ts));
      assert vs[k] == TileOf(A, ts[k], mem, shape, r);
    }
    assert ValuesAt(vs, []) == ValuesOf(A, ts, mem, []);
  }

  lemma GridCell<S(!new)>(A: Arithmetic<S>, op: Oper, ts: seq<Template>, mem: Mem<Cells<S>>, shape: set<Coord>,
      r: Region, vs: seq<TileValue<S>>, q: Coord)
    requires OperandTiles(A, ts, mem, shape, r, vs) && q in RegionCoords(shape, r)
    requires forall k :: 0 <= k < |vs| && vs[k].Grid? ==> q in vs[k].cells
    requires Shaped(TLoads(TOp(op, ts)), mem, shape)
    ensures DefinedAt(TLoads(TOp(op, ts)), mem, Absolute(r, q))
    ensures A.scalar(op, ValuesAt(vs, q)) == ValueAt(A, TOp(op, ts), mem, Absolute(r, q))
  {
    OperandValues(A, ts, mem, shape, r, vs, q);
  }

  lemma TileOfCells<S>(A: Arithmetic<S>, t: Template, mem: Mem<Cells<S>>, shape: set<Coord>, r: Region,
      g: map<Coord, S>)
    requires TLoads(t) != {} && Shaped(TLoads(t), mem, shape) && g.Keys == RegionCoords(shape, r)
    requires forall q :: q in g ==>
      DefinedAt(TLoads(t), mem, Absolute(r, q)) && g[q] == ValueAt(A, t, mem, Absolute(r, q))
    ensures TileOf(A, t, mem, shape, r) == Grid(g)
  {
  }

  lemma PointwiseCells<S>(f: (Oper, seq<S>) -> S, op: Oper, vs: seq<TileValue<S>>, R: set<Coord>)
    requires !AllUniform(vs) && CommonCoords(vs) == R
    requires forall k :: 0 <= k < |vs| && vs[k].Grid? ==> vs[k].cells.Keys == R
    ensures Pointwise(f, op, vs) == Grid(map q | q in R :: f(op, ValuesAt(vs, q)))
  {
  }

  lemma GridOperands<S(!new)>(A: Arithmetic<S>, op: Oper, ts: seq<Template>, mem: Mem<Cells<S>>, shape: set<Coord>,
      r: Region, vs: seq<TileValue<S>>, k0: nat)
    requires OperandTiles(A, ts, mem, shape, r, vs)
    requires k0 < |ts| && TLoads(ts[k0]) != {} && TLoads(TOp(op, ts)) != {}
    requires Shaped(TLoads(TOp(op, ts)), mem, shape)
    ensures Pointwise(A.scalar, op, vs) == TileOf(A, TOp(op, ts), mem, shape, r)
  {
    var R := RegionCoords(shape, r);
    OperandCoords(A, ts, mem, shape, r, vs, k0);
    PointwiseCells(A.scalar, op, vs, R);
    var g := map q | q in R :: A.scalar(op, ValuesAt(vs, q));
    forall q | q in g
      ensures DefinedAt(TLoads(TOp(op, ts)), mem, Absolute(r, q)) &&
        g[q] == ValueAt(A, TOp(op, ts), mem, Absolute(r, q))
    {
      GridCell(A, op, ts, mem, shape, r, vs, q);
    }
    TileOfCells(A, TOp(op, ts), mem, shape, r, g);
  }

  lemma PointwiseTiles<S(!new)>(A: Arithmetic<S>, op: Oper, ts: seq<Template>, mem: Mem<Cells<S>>, shape: set<Coord>,
      r: Region, vs: seq<TileValue<S>>)
    requires OperandTiles(A, ts, mem, shape, r, vs)
    requires Shaped(TLoads(TOp(op, ts)), mem, shape)
    ensures Pointwise(A.scalar, op, vs) == TileOf(A, TOp(op, ts), mem, shape, r)
  {
    if n :| n in TLoads(TOp(op, ts)) {
      var k0 :| 0 <= k0 < |ts| && n in TLoads(ts[k0]);
      GridOperands(A, op, ts, mem, shape, r, vs, k0);
    } else {
      assert TLoads(TOp(op, ts)) == {};
      UniformOperands(A, op, ts, mem, shape, r, vs);
    }
  }

  // ---------------------------------------------------------------------------------------------
  // Consumers

  /** In this memory every cell of `out` holds the template's value there. */
  ghost predicate Offers<S>(A: Arithmetic<S>, mem: Mem<Cells<S>>, out: Name, t: Template) {
    && WellFormed(t) && out !in TLoads(t)
    && Shaped(TLoads(t), mem, CellsOf(mem, out).Keys)
    && forall p :: p in CellsOf(mem, out) ==> CellsOf(mem, out)[p] == ValueAt(A, t, mem, p)
  }

  /** A load of `out` at any index reads what the template evaluates to there. */
  lemma {:induction false} InlineEval<S(!new)>(A: Arithmetic<S>, e: Expr, out: Name, t: Template, env: Env,
      mem: Mem<Cells<S>>)
    requires PointwiseArithmetic(A) && Offers(A, mem, out, t) && TLoads(t) != {}
    ensures Eval(A.Machine(), InlineExpr(e, out, t), env, mem) == Eval(A.Machine(), e, env, mem)
    decreases e, 1
  {
    var M := A.Machine();
    match e
    case Load(n, jx) =>
      if n == out {
        var c, r := CellsOf(mem, out), ResolveAll(jx, env);
        EvalBuild(A, t, jx, env, mem, c.Keys);
        TileOfCells(A, t, mem, c.Keys, r, map q | q in RegionCoords(c.Keys, r) :: c[Absolute(r, q)]);
        assert Get(M, mem, out) == c;
      }
    case Const(_) =>
    case Arange(_) =>
    case Op(op, args) =>
      forall k | 0 <= k < |args|
        ensures Eval(M, InlineExpr(args[k], out, t), env, mem) == Eval(M, args[k], env, mem)
      {
        InlineEval(A, args[k], out, t, env, mem);
      }
      assert EvalAll(M, InlineExprs(args, out, t), env, mem) == EvalAll(M, args, env, mem);
  }

  function InlineAct(a: Act, out: Name, t: Template): Act {
    Act(a.tensor, InlineExpr(a.value, out, t), a.index, a.env)
  }

  function InlineActs(tr: seq<Act>, out: Name, t: Template): (r: seq<Act>)
    ensures |r| == |tr|
  {
    if tr == [] then [] else [InlineAct(tr[0], out, t)] + InlineActs(tr[1..], out, t)
  }

  lemma {:induction false} InlineActsAppend(x: seq<Act>, y: seq<Act>, out: Name, t: Template)
    ensures InlineActs(x + y, out, t) == InlineActs(x, out, t) + InlineActs(y, out, t)
  {
    if x == [] {
      assert x + y == y;
    } else {
      assert (x + y)[1..] == x[1..] + y;
      InlineActsAppend(x[1..], y, out, t);
    }
  }

  /** Inlining changes neither the loops nor the indices. */
  lemma {:induction false} TraceInline(size: string -> pos, s: Stmt, out: Name, t: Template, env: Env)
    ensures Trace(size, InlineStmt(s, out, t), env) == InlineActs(Trace(size, s, env), out, t)
    decreases s, 1, 0
  {
    match s
    case Store(_, _, _) =>
    case Loop(lo, hi, tile, x, b) =>
      LoopInline(size, b, out, t, x, size(tile), BoundValue(lo, env), BoundValue(hi, env), env);
    case Seq(l, r) =>
      TraceInline(size, l, out, t, env);
      TraceInline(size, r, out, t, env);
      InlineActsAppend(Trace(size, l, env), Trace(size, r, env), out, t);
    case Block(ss) => AllInline(size, ss, out, t, env);
  }

  lemma {:induction false} LoopInline(size: string -> pos, b: Stmt, out: Name, t: Template, x: Name, step: pos, lo: int,
      hi: int, env: Env)
    ensures LoopTrace(size, InlineStmt(b, out, t), x, step, lo, hi, env) ==
      InlineActs(LoopTrace(size, b, x, step, lo, hi, env), out, t)
    decreases b, 2, if lo < hi then hi - lo else 0
  {
    if lo < hi {
      var env' := Bind(env, x, lo, step);
      TraceInline(size, b, out, t, env');
      LoopInline(size, b, out, t, x, step, lo + step, hi, env);
      InlineActsAppend(Trace(size, b, env'), LoopTrace(size, b, x, step, lo + step, hi, env), out, t);
    }
  }

  lemma {:induction false} AllInline(size: string -> pos, ss: seq<Stmt>, out: Name, t: Template, env: Env)
    ensures TraceAll(size, InlineStmts(ss, out, t), env) == InlineActs(TraceAll(size, ss, env), out, t)
    decreases ss, 0, 0
  {
    if ss != [] {
      TraceInline(size, ss[0], out, t, env);
      AllInline(size, ss[1..], out, t, env);
      InlineActsAppend(Trace(size, ss[0], env), TraceAll(size, ss[1..], env), out, t);
      assert InlineStmts(ss, out, t)[1..] == InlineStmts(ss[1..], out, t);
    }
  }

  // ---------------------------------------------------------------------------------------------
  // Templates without loads
  //
  // A constant has one value for all coordinates, where the tensor it replaces has the cells of a
  // region.  What that changes is decided by shapes, through the elementwise part of an expression:
  // the operators above its first loads, ranges and other operators.

  /** The tile has a number at this relative coordinate. */
  predicate TileHas<S>(v: TileValue<S>, q: Coord) { v.Uniform? || q in v.cells }

  function TileAt<S>(v: TileValue<S>, q: Coord): S
    requires TileHas(v, q)
  {
    if v.Uniform? then v.s else v.cells[q]
  }

  function NumbersAt<S>(vs: seq<TileValue<S>>, q: Coord): (xs: seq<S>)
    requires forall k :: 0 <= k < |vs| ==> TileHas(vs[k], q)
    ensures |xs| == |vs| && forall k :: 0 <= k < |vs| ==> xs[k] == TileAt(vs[k], q)
  {
    seq(|vs|, k requires 0 <= k < |vs| => TileAt(vs[k], q))
  }

  lemma PointwiseHas<S>(f: (Oper, seq<S>) -> S, op: Oper, vs: seq<TileValue<S>>, q: Coord)
    ensures Pointwise(f, op, vs).Uniform? <==> AllUniform(vs)
    ensures TileHas(Pointwise(f, op, vs), q) <==> forall k :: 0 <= k < |vs| ==> TileHas(vs[k], q)
    ensures (forall k :: 0 <= k < |vs| ==> TileHas(vs[k], q)) ==>
      TileHas(Pointwise(f, op, vs), q) && TileAt(Pointwise(f, op, vs), q) == f(op, NumbersAt(vs, q))
  {
    if forall k :: 0 <= k < |vs| ==> TileHas(vs[k], q) {
      assert !AllUniform(vs) ==> q in CommonCoords(vs);
      if AllUniform(vs) {
        assert ValuesAt(vs, []) == NumbersAt(vs, q);
      } else {
        assert ValuesAt(vs, q) == NumbersAt(vs, q);
      }
    }
  }

  /** Two tiles with the same numbers. */
  lemma SameTiles<S>(v: TileValue<S>, w: TileValue<S>)
    requires v.Grid? && w.Grid?
    requires forall q :: TileHas(v, q) <==> TileHas(w, q)
    requires forall q :: TileHas(v, q) && TileHas(w, q) ==> TileAt(v, q) == TileAt(w, q)
    ensures v == w
  {
    assert forall q :: q in v.cells <==> TileHas(v, q);
    assert forall q :: q in w.cells <==> TileHas(w, q);
    assert v.cells == w.cells;
  }

  function KeysOf<S>(mem: Mem<Cells<S>>, n: Name): set<Coord> { CellsOf(mem, n).Keys }

  ghost predicate SameKeys<S>(mem: Mem<Cells<S>>, shape: Mem<Cells<S>>) {
    forall n :: CellsOf(mem, n).Keys == CellsOf(shape, n).Keys
  }

  /** The elementwise part loads the tensor. */
  predicate Exposes(e: Expr, out: Name) {
    match e
    case Load(n, _) => n == out
    case Op(op, args) => IsElementwise(op) && exists k :: 0 <= k < |args| && Exposes(args[k], out)
    case _ => false
  }

  /** It has another operand whose cells are known: a load of another tensor, or a range with cells. */
  predicate Anchored<S>(A: Arithmetic<S>, e: Expr, out: Name, env: Env) {
    match e
    case Load(n, _) => n != out
    case Const(_) => false
    case Arange(x) => A.arange(Lookup(env, x).value, Lookup(env, x).step).Grid?
    case Op(op, args) => IsElementwise(op) && exists k :: 0 <= k < |args| && Anchored(A, args[k], out, env)
  }

  /** The coordinate is a cell of all those operands. */
  predicate InOthers<S>(A: Arithmetic<S>, e: Expr, out: Name, env: Env, shape: Mem<Cells<S>>, q: Coord) {
    match e
    case Load(n, jx) => n == out || q in RegionCoords(KeysOf(shape, n), ResolveAll(jx, env))
    case Const(_) => true
    case Arange(x) => TileHas(A.arange(Lookup(env, x).value, Lookup(env, x).step), q)
    case Op(op, args) => IsElementwise(op) ==> forall k :: 0 <= k < |args| ==> InOthers(A, args[k], out, env, shape, q)
  }

  /** The coordinate is a cell of the tensor wherever the elementwise part loads it. */
  predicate InReplaced<S>(e: Expr, out: Name, env: Env, shape: Mem<Cells<S>>, q: Coord) {
    match e
    case Load(n, jx) => n == out ==> q in RegionCoords(KeysOf(shape, n), ResolveAll(jx, env))
    case Op(op, args) => IsElementwise(op) ==> forall k :: 0 <= k < |args| ==> InReplaced(args[k], out, env, shape, q)
    case _ => true
  }

  /** As an operand, the expression keeps its tile: its elementwise part does not load the tensor, or is
      left with operands whose cells the tensor covers; and so it is inside, if anything of it shows. */
  ghost predicate KeepsTile<S(!new)>(A: Arithmetic<S>, e: Expr, out: Name, env: Env, shape: Mem<Cells<S>>)
    decreases e, 1
  {
    && (Exposes(e, out) ==>
         Anchored(A, e, out, env) && forall q :: InOthers(A, e, out, env, shape, q) ==>
           InReplaced(e, out, env, shape, q))
    && (Shows(A, e, out, env, shape) ==> KeepsInside(A, e, out, env, shape))
  }

  /** Some coordinate can show what the operators below the elementwise part give. */
  ghost predicate Shows<S(!new)>(A: Arithmetic<S>, e: Expr, out: Name, env: Env, shape: Mem<Cells<S>>) {
    Anchored(A, e, out, env) ==> exists q :: InOthers(A, e, out, env, shape, q)
  }

  /** All operands of the operators below the elementwise part keep their tiles. */
  ghost predicate KeepsInside<S(!new)>(A: Arithmetic<S>, e: Expr, out: Name, env: Env, shape: Mem<Cells<S>>)
    decreases e, 0
  {
    match e
    case Op(op, args) =>
      if IsElementwise(op) then forall k :: 0 <= k < |args| ==> KeepsInside(A, args[k], out, env, shape)
      else forall k :: 0 <= k < |args| ==> KeepsTile(A, args[k], out, env, shape)
    case _ => true
  }

  /** A store of the expression writes the same: the tensor covers the cells that are written, and so on
      inside, if any cell is. */
  ghost predicate KeepsStore<S(!new)>(A: Arithmetic<S>, a: Act, out: Name, shape: Mem<Cells<S>>) {
    var cells := RegionCoords(KeysOf(shape, a.tensor), a.Where());
    && (forall q :: q in cells && InOthers(A, a.value, out, a.env, shape, q) ==>
      InReplaced(a.value, out, a.env, shape, q))
    && ((exists q :: q in cells && InOthers(A, a.value, out, a.env, shape, q)) ==>
      KeepsInside(A, a.value, out, a.env, shape))
  }

  /** A store that does not load the tensor keeps everything. */
  lemma {:induction false} NotLoadedKeeps<S(!new)>(A: Arithmetic<S>, e: Expr, out: Name, env: Env, shape: Mem<Cells<S>>)
    requires out !in Loads(e)
    ensures !Exposes(e, out) && KeepsTile(A, e, out, env, shape) && KeepsInside(A, e, out, env, shape)
    ensures forall q :: InReplaced(e, out, env, shape, q)
  {
    if e.Op? {
      forall k | 0 <= k < |e.args|
        ensures !Exposes(e.args[k], out) && KeepsTile(A, e.args[k], out, env, shape) &&
          KeepsInside(A, e.args[k], out, env, shape)
        ensures forall q :: InReplaced(e.args[k], out, env, shape, q)
      {
        assert forall n :: n in Loads(e.args[k]) ==> n in Loads(e);
        NotLoadedKeeps(A, e.args[k], out, env, shape);
      }
    }
  }

  /** The tensor holds the value of a template without loads. */
  ghost predicate OffersConstant<S>(A: Arithmetic<S>, mem: Mem<Cells<S>>, out: Name, t: Template) {
    WellFormed(t) && TLoads(t) == {} && forall p :: p in CellsOf(mem, out) ==>
      CellsOf(mem, out)[p] == ValueAt(A, t, mem, [])
  }

  function ValueOf<S>(A: Arithmetic<S>, e: Expr, env: Env, mem: Mem<Cells<S>>): TileValue<S> {
    Eval(A.Machine(), e, env, mem)
  }

  lemma OperandTilesOf<S(!new)>(A: Arithmetic<S>, op: Oper, args: seq<Expr>, env: Env, mem: Mem<Cells<S>>,
      vs: seq<TileValue<S>>)
    requires PointwiseArithmetic(A) && |vs| == |args| && forall k :: 0 <= k < |args| ==>
      vs[k] == ValueOf(A, args[k], env, mem)
    ensures ValueOf(A, Op(op, args), env, mem) == A.apply(op, vs)
    ensures IsElementwise(op) ==> ValueOf(A, Op(op, args), env, mem) == Pointwise(A.scalar, op, vs)
  {
    assert EvalAll(A.Machine(), args, env, mem) == vs;
  }

  /** A load of the tensor reads the constant in every cell of its region. */
  lemma ConstantRead<S(!new)>(A: Arithmetic<S>, jx: Index, out: Name, t: Template, env: Env, mem: Mem<Cells<S>>,
      shape: Mem<Cells<S>>)
    requires PointwiseArithmetic(A) && OffersConstant(A, mem, out, t) && SameKeys(mem, shape)
    ensures ValueOf(A, Build(t, jx), env, mem) == Uniform(ValueAt(A, t, mem, []))
    ensures var v := ValueOf(A, Load(out, jx), env, mem);
      v.Grid? && v.cells.Keys == RegionCoords(KeysOf(shape, out), ResolveAll(jx, env)) && forall q :: q in v.cells ==>
        v.cells[q] == ValueAt(A, t, mem, [])
  {
    EvalBuild(A, t, jx, env, mem, {});
    assert Get(A.Machine(), mem, out) == CellsOf(mem, out);
  }

  lemma OtherRead<S(!new)>(A: Arithmetic<S>, n: Name, jx: Index, env: Env, mem: Mem<Cells<S>>, shape: Mem<Cells<S>>)
    requires SameKeys(mem, shape)
    ensures var v := ValueOf(A, Load(n, jx), env, mem);
      v.Grid? && v.cells.Keys == RegionCoords(KeysOf(shape, n), ResolveAll(jx, env))
  {
    assert Get(A.Machine(), mem, n) == CellsOf(mem, n);
  }

  /** Where the tiles before and after the replacement can have numbers. */
  ghost predicate Bounded<S(!new)>(A: Arithmetic<S>, e: Expr, out: Name, env: Env, shape: Mem<Cells<S>>,
      v: TileValue<S>, w: TileValue<S>, q: Coord)
  {
    && (TileHas(v, q) ==> InOthers(A, e, out, env, shape, q) && InReplaced(e, out, env, shape, q))
    && (TileHas(w, q) ==> InOthers(A, e, out, env, shape, q))
    && (Anchored(A, e, out, env) ==> v.Grid? && w.Grid?) && (Exposes(e, out) ==> v.Grid?)
  }

  lemma PointwiseBounded<S(!new)>(A: Arithmetic<S>, op: Oper, args: seq<Expr>, out: Name, env: Env,
      shape: Mem<Cells<S>>, vs: seq<TileValue<S>>, ws: seq<TileValue<S>>, q: Coord)
    requires IsElementwise(op) && |vs| == |args| == |ws|
    requires forall k :: 0 <= k < |args| ==> Bounded(A, args[k], out, env, shape, vs[k], ws[k], q)
    ensures Bounded(A, Op(op, args), out, env, shape, Pointwise(A.scalar, op, vs), Pointwise(A.scalar, op, ws), q)
  {
    PointwiseHas(A.scalar, op, vs, q);
    PointwiseHas(A.scalar, op, ws, q);
  }

  lemma {:induction false} ConstantCells<S(!new)>(A: Arithmetic<S>, e: Expr, out: Name, t: Template, env: Env,
      mem: Mem<Cells<S>>, shape: Mem<Cells<S>>, q: Coord)
    requires PointwiseArithmetic(A) && OffersConstant(A, mem, out, t) && SameKeys(mem, shape)
    ensures Bounded(A, e, out, env, shape, ValueOf(A, e, env, mem), ValueOf(A, InlineExpr(e, out, t), env, mem), q)
    decreases e
  {
    match e
    case Load(n, jx) =>
      if n == out {
        ConstantRead(A, jx, out, t, env, mem, shape);
      } else {
        OtherRead(A, n, jx, env, mem, shape);
      }
    case Const(_) =>
    case Arange(_) =>
    case Op(op, args) =>
      if IsElementwise(op) {
        var vs := seq(|args|, k requires 0 <= k < |args| => ValueOf(A, args[k], env, mem));
        var ws := seq(|args|, k requires 0 <= k < |args| => ValueOf(A, InlineExpr(args[k], out, t), env, mem));
        forall k | 0 <= k < |args| ensures Bounded(A, args[k], out, env, shape, vs[k], ws[k], q) {
          ConstantCells(A, args[k], out, t, env, mem, shape, q);
        }
        OperandTilesOf(A, op, args, env, mem, vs);
        OperandTilesOf(A, op, InlineExprs(args, out, t), env, mem, ws);
        PointwiseBounded(A, op, args, out, env, shape, vs, ws, q);
      }
  }

  /** So it is if everything inside is kept. */
  lemma {:induction false} ConstantInside<S(!new)>(A: Arithmetic<S>, e: Expr, out: Name, t: Template, env: Env,
      mem: Mem<Cells<S>>, shape: Mem<Cells<S>>, q: Coord)
    requires PointwiseArithmetic(A) && OffersConstant(A, mem, out, t) && SameKeys(mem, shape) &&
      KeepsInside(A, e, out, env, shape)
    ensures Kept(A, e, out, env, shape, ValueOf(A, e, env, mem), ValueOf(A, InlineExpr(e, out, t), env, mem), q)
    decreases e, 0, 0
  {
    match e
    case Load(n, jx) =>
      if n == out {
        ConstantRead(A, jx, out, t, env, mem, shape);
      } else {
        OtherRead(A, n, jx, env, mem, shape);
      }
    case Const(_) =>
    case Arange(_) =>
    case Op(op, args) =>
      var vs := seq(|args|, k requires 0 <= k < |args| => ValueOf(A, args[k], env, mem));
      var ws := seq(|args|, k requires 0 <= k < |args| => ValueOf(A, InlineExpr(args[k], out, t), env, mem));
      OperandTilesOf(A, op, args, env, mem, vs);
      OperandTilesOf(A, op, InlineExprs(args, out, t), env, mem, ws);
      if IsElementwise(op) {
        forall k | 0 <= k < |args| ensures Kept(A, args[k], out, env, shape, vs[k], ws[k], q) {
          ConstantInside(A, args[k], out, t, env, mem, shape, q);
        }
        PointwiseKept(A, op, args, out, env, shape, vs, ws, q);
      } else {
        forall k | 0 <= k < |args| ensures vs[k] == ws[k] { ConstantTile(A, args[k], out, t, env, mem, shape); }
        assert vs == ws;
      }
  }

  /** The tiles have the same numbers where the tensor has cells. */
  ghost predicate Kept<S(!new)>(A: Arithmetic<S>, e: Expr, out: Name, env: Env, shape: Mem<Cells<S>>, v: TileValue<S>,
      w: TileValue<S>, q: Coord)
  {
    && (TileHas(v, q) <==> TileHas(w, q) && InReplaced(e, out, env, shape, q))
    && (TileHas(v, q) ==> TileAt(v, q) == TileAt(w, q))
    && (!Exposes(e, out) ==> v == w)
  }

  lemma PointwiseKept<S(!new)>(A: Arithmetic<S>, op: Oper, args: seq<Expr>, out: Name, env: Env, shape: Mem<Cells<S>>,
      vs: seq<TileValue<S>>, ws: seq<TileValue<S>>, q: Coord)
    requires IsElementwise(op) && |vs| == |args| == |ws|
    requires forall k :: 0 <= k < |args| ==> Kept(A, args[k], out, env, shape, vs[k], ws[k], q)
    ensures Kept(A, Op(op, args), out, env, shape, Pointwise(A.scalar, op, vs), Pointwise(A.scalar, op, ws), q)
  {
    ReplacedParts(op, args, out, env, shape, q);
    if forall k :: 0 <= k < |args| ==> !Exposes(args[k], out) { assert vs == ws; }
    PointwiseAgrees(A.scalar, op, vs, ws, q,
      seq(|args|, k requires 0 <= k < |args| => InReplaced(args[k], out, env, shape, q)));
  }

  lemma ReplacedParts<S>(op: Oper, args: seq<Expr>, out: Name, env: Env, shape: Mem<Cells<S>>, q: Coord)
    requires IsElementwise(op)
    ensures InReplaced(Op(op, args), out, env, shape, q) <==>
      forall k :: 0 <= k < |args| ==> InReplaced(args[k], out, env, shape, q)
    ensures Exposes(Op(op, args), out) <==> exists k :: 0 <= k < |args| && Exposes(args[k], out)
  {
  }

  /** Operands that agree where the flags say so make results that agree where all flags do. */
  lemma PointwiseAgrees<S>(f: (Oper, seq<S>) -> S, op: Oper, vs: seq<TileValue<S>>, ws: seq<TileValue<S>>, q: Coord,
      flags: seq<bool>)
    requires |vs| == |ws| == |flags|
    requires forall k :: 0 <= k < |vs| ==> (TileHas(vs[k], q) <==> TileHas(ws[k], q) && flags[k])
    requires forall k :: 0 <= k < |vs| ==> TileHas(vs[k], q) ==> TileAt(vs[k], q) == TileAt(ws[k], q)
    ensures var v, w := Pointwise(f, op, vs), Pointwise(f, op, ws);
      (TileHas(v, q) <==> TileHas(w, q) && forall k :: 0 <= k < |flags| ==> flags[k]) &&
        (TileHas(v, q) ==> TileAt(v, q) == TileAt(w, q))
  {
    PointwiseHas(f, op, vs, q);
    PointwiseHas(f, op, ws, q);
    if forall k :: 0 <= k < |vs| ==> TileHas(vs[k], q) { SameNumbers(f, op, vs, ws, q); }
  }

  lemma SameNumbers<S>(f: (Oper, seq<S>) -> S, op: Oper, vs: seq<TileValue<S>>, ws: seq<TileValue<S>>, q: Coord)
    requires |vs| == |ws|
    requires forall k :: 0 <= k < |vs| ==>
      TileHas(vs[k], q) && TileHas(ws[k], q) && TileAt(vs[k], q) == TileAt(ws[k], q)
    ensures TileHas(Pointwise(f, op, vs), q) && TileHas(Pointwise(f, op, ws), q)
    ensures TileAt(Pointwise(f, op, vs), q) == TileAt(Pointwise(f, op, ws), q)
  {
    PointwiseHas(f, op, vs, q);
    PointwiseHas(f, op, ws, q);
    assert NumbersAt(vs, q) == NumbersAt(ws, q);
  }

  /** An operand that keeps its tile has the same tile after the replacement. */
  lemma {:induction false} ConstantTile<S(!new)>(A: Arithmetic<S>, e: Expr, out: Name, t: Template, env: Env,
      mem: Mem<Cells<S>>, shape: Mem<Cells<S>>)
    requires PointwiseArithmetic(A) && OffersConstant(A, mem, out, t) && SameKeys(mem, shape) &&
      KeepsTile(A, e, out, env, shape)
    ensures ValueOf(A, InlineExpr(e, out, t), env, mem) == ValueOf(A, e, env, mem)
    decreases e, 1, 0
  {
    var v, w := ValueOf(A, e, env, mem), ValueOf(A, InlineExpr(e, out, t), env, mem);
    forall q ensures Bounded(A, e, out, env, shape, v, w, q) { ConstantCells(A, e, out, t, env, mem, shape, q); }
    assert Bounded(A, e, out, env, shape, v, w, []);
    if Shows(A, e, out, env, shape) {
      ConstantInside(A, e, out, t, env, mem, shape, []);
      if Exposes(e, out) { ExposedTile(A, e, out, t, env, mem, shape, v, w); }
    } else {
      assert forall q :: Bounded(A, e, out, env, shape, v, w, q) ==> !TileHas(v, q) && !TileHas(w, q);
      SameTiles(v, w);
    }
  }

  lemma {:induction false} ExposedTile<S(!new)>(A: Arithmetic<S>, e: Expr, out: Name, t: Template, env: Env,
      mem: Mem<Cells<S>>, shape: Mem<Cells<S>>, v: TileValue<S>, w: TileValue<S>)
    requires PointwiseArithmetic(A) && OffersConstant(A, mem, out, t) && SameKeys(mem, shape) &&
      KeepsTile(A, e, out, env, shape)
    requires Exposes(e, out) && KeepsInside(A, e, out, env, shape)
    requires v == ValueOf(A, e, env, mem) && w == ValueOf(A, InlineExpr(e, out, t), env, mem)
    requires forall q :: Bounded(A, e, out, env, shape, v, w, q)
    ensures v == w
    decreases e, 0, 1
  {
    assert Bounded(A, e, out, env, shape, v, w, []);
    forall q ensures TileHas(v, q) <==> TileHas(w, q)
      ensures TileHas(v, q) && TileHas(w, q) ==> TileAt(v, q) == TileAt(w, q)
    {
      assert Bounded(A, e, out, env, shape, v, w, q);
      ConstantInside(A, e, out, t, env, mem, shape, q);
    }
    SameTiles(v, w);
  }

  /** A store that keeps what it writes does the same after the replacement. */
  lemma ConstantStep<S(!new)>(A: Arithmetic<S>, a: Act, out: Name, t: Template, mem: Mem<Cells<S>>,
      shape: Mem<Cells<S>>)
    requires PointwiseArithmetic(A) && OffersConstant(A, mem, out, t) && SameKeys(mem, shape) &&
      KeepsStore(A, a, out, shape)
    ensures Step(A.Machine(), InlineAct(a, out, t), mem) == Step(A.Machine(), a, mem)
  {
    var v, w := ValueOf(A, a.value, a.env, mem), ValueOf(A, InlineExpr(a.value, out, t), a.env, mem);
    var c, r := CellsOf(mem, a.tensor), a.Where();
    forall p | p in c ensures Written(c, r, v, p) == Written(c, r, w, p) {
      if InRegion(r, p) {
        AbsoluteRelative(r, p);
        WrittenKept(A, a, out, t, mem, shape, Relative(r, p));
      }
    }
    assert WriteCells(c, r, v) == WriteCells(c, r, w);
    assert Get(A.Machine(), mem, a.tensor) == c;
  }

  lemma WrittenKept<S(!new)>(A: Arithmetic<S>, a: Act, out: Name, t: Template, mem: Mem<Cells<S>>, shape: Mem<Cells<S>>,
      q: Coord)
    requires PointwiseArithmetic(A) && OffersConstant(A, mem, out, t) && SameKeys(mem, shape) &&
      KeepsStore(A, a, out, shape)
    requires q in RegionCoords(KeysOf(shape, a.tensor), a.Where())
    ensures var v, w := ValueOf(A, a.value, a.env, mem), ValueOf(A, InlineExpr(a.value, out, t), a.env, mem);
      (TileHas(v, q) <==> TileHas(w, q)) && (TileHas(v, q) ==> TileAt(v, q) == TileAt(w, q))
  {
    ConstantCells(A, a.value, out, t, a.env, mem, shape, q);
    if InOthers(A, a.value, out, a.env, shape, q) { ConstantInside(A, a.value, out, t, a.env, mem, shape, q); }
  }

  lemma OffersKept<S(!new)>(A: Arithmetic<S>, mem: Mem<Cells<S>>, mem': Mem<Cells<S>>, out: Name, t: Template)
    requires Offers(A, mem, out, t) && forall n :: n == out || n in TLoads(t) ==> CellsOf(mem', n) == CellsOf(mem, n)
    ensures Offers(A, mem', out, t)
  {
    forall p | p in CellsOf(mem', out) ensures CellsOf(mem', out)[p] == ValueAt(A, t, mem', p) {
      ValueAgree(A, t, mem, p, mem', p);
    }
  }

  /** The consumers keep what they store: only for a template without loads is this a condition. */
  ghost predicate Allows<S(!new)>(A: Arithmetic<S>, tr: seq<Act>, out: Name, t: Template, shape: Mem<Cells<S>>) {
    TLoads(t) == {} ==> forall a :: a in tr ==> KeepsStore(A, a, out, shape)
  }

  lemma InlineStep<S(!new)>(A: Arithmetic<S>, a: Act, out: Name, t: Template, mem: Mem<Cells<S>>, shape: Mem<Cells<S>>)
    requires PointwiseArithmetic(A) && Offers(A, mem, out, t) && SameKeys(mem, shape) &&
      (TLoads(t) == {} ==> KeepsStore(A, a, out, shape))
    ensures Step(A.Machine(), InlineAct(a, out, t), mem) == Step(A.Machine(), a, mem)
  {
    if TLoads(t) == {} {
      forall p | p in CellsOf(mem, out)
        ensures CellsOf(mem, out)[p] == ValueAt(A, t, mem, [])
      {
        ValueAgree(A, t, mem, p, mem, []);
      }
      ConstantStep(A, a, out, t, mem, shape);
    } else {
      InlineEval(A, a.value, out, t, a.env, mem);
      assert InlineAct(a, out, t).Where() == a.Where();
    }
  }

  lemma OffersStill<S(!new)>(A: Arithmetic<S>, a: Act, out: Name, t: Template, mem: Mem<Cells<S>>, shape: Mem<Cells<S>>)
    requires Offers(A, mem, out, t) && SameKeys(mem, shape) && a.tensor != out && a.tensor !in TLoads(t)
    ensures Offers(A, Step(A.Machine(), a, mem), out, t) && SameKeys(Step(A.Machine(), a, mem), shape)
  {
    OffersKept(A, mem, Step(A.Machine(), a, mem), out, t);
  }

  lemma {:induction false} InlineRun<S(!new)>(A: Arithmetic<S>, tr: seq<Act>, out: Name, t: Template,
      mem: Mem<Cells<S>>, shape: Mem<Cells<S>>)
    requires PointwiseArithmetic(A) && Offers(A, mem, out, t) && SameKeys(mem, shape) && Allows(A, tr, out, t, shape)
    requires forall a :: a in tr ==> a.tensor != out && a.tensor !in TLoads(t)
    ensures Run(A.Machine(), InlineActs(tr, out, t), mem) == Run(A.Machine(), tr, mem)
    ensures Offers(A, Run(A.Machine(), tr, mem), out, t)
  {
    if tr != [] {
      assert tr[0] in tr;
      var mem1 := Step(A.Machine(), tr[0], mem);
      InlineStep(A, tr[0], out, t, mem, shape);
      OffersStill(A, tr[0], out, t, mem, shape);
      InlineRun(A, tr[1..], out, t, mem1, shape);
    }
  }

  /** A consumer that stores neither the tensor nor the template's inputs runs the same inlined. */
  lemma InlineExec<S(!new)>(A: Arithmetic<S>, s: Stmt, out: Name, t: Template, env: Env, mem: Mem<Cells<S>>,
      shape: Mem<Cells<S>>)
    requires PointwiseArithmetic(A) && Offers(A, mem, out, t) && StmtStores(s) !! {out} + TLoads(t)
    requires SameKeys(mem, shape) && Allows(A, Trace(A.size, s, env), out, t, shape)
    ensures Exec(A.Machine(), InlineStmt(s, out, t), env, mem) == Exec(A.Machine(), s, env, mem)
    ensures Offers(A, Exec(A.Machine(), s, env, mem), out, t)
  {
    var M := A.Machine();
    ExecIsRun(M, s, env, mem);
    ExecIsRun(M, InlineStmt(s, out, t), env, mem);
    TraceInline(M.tileSize, s, out, t, env);
    TraceTouches(M.tileSize, s, env);
    InlineRun(A, Trace(M.tileSize, s, env), out, t, mem, shape);
  }

  // ---------------------------------------------------------------------------------------------
  // Producers

  lemma {:induction false} ExtractBuilds(e: Expr, ix: Index)
    requires Extract(e, ix).Some?
    ensures var t := Extract(e, ix).value; Build(t, ix) == e && WellFormed(t) && TLoads(t) == Loads(e)
  {
    if e.Op? {
      var ts := ExtractAll(e.args, ix).value;
      forall k | 0 <= k < |ts|
        ensures Build(ts[k], ix) == e.args[k] && WellFormed(ts[k]) && TLoads(ts[k]) == Loads(e.args[k])
      {
        ExtractBuilds(e.args[k], ix);
      }
      assert BuildAll(ts, ix) == e.args;
      SameLoads(ts, e.args, e.op);
    }
  }

  lemma SameLoads(ts: seq<Template>, args: seq<Expr>, op: Oper)
    requires |ts| == |args| && forall k :: 0 <= k < |ts| ==> TLoads(ts[k]) == Loads(args[k])
    ensures TLoads(TOp(op, ts)) == Loads(Op(op, args))
  {
    forall n ensures n in TLoads(TOp(op, ts)) <==> n in Loads(Op(op, args)) {
      if n in TLoads(TOp(op, ts)) {
        var k :| 0 <= k < |ts| && n in TLoads(ts[k]);
        assert args[k] in args;
      }
      if n in Loads(Op(op, args)) {
        var k :| 0 <= k < |args| && n in Loads(args[k]);
        assert ts[k] in ts;
      }
    }
  }

  /** All stores of a nest. */
  ghost predicate OneStore(tr: seq<Act>, store: Stmt)
    requires store.Store?
  {
    forall a :: a in tr ==> a.tensor == store.tensor && a.value == store.value && a.index == store.index
  }

  lemma {:induction false} NestActs(size: string -> pos, s: Stmt, env: Env)
    requires SingleStore(s).Some?
    ensures OneStore(Trace(size, s, env), SingleStore(s).value)
    ensures StmtStores(s) == {SingleStore(s).value.tensor}
    decreases s, 1, 0
  {
    match s
    case Store(_, _, _) =>
    case Seq(_, _) =>
    case Loop(lo, hi, tile, x, b) =>
      NestActs(size, b, env);
      NestLoop(size, b, x, size(tile), BoundValue(lo, env), BoundValue(hi, env), env);
    case Block(ss) =>
      NestActs(size, ss[0], env);
      assert TraceAll(size, ss, env) == Trace(size, ss[0], env) + TraceAll(size, ss[1..], env);
      assert StmtStores(s) == StmtStores(ss[0]);
  }

  lemma {:induction false} NestLoop(size: string -> pos, b: Stmt, x: Name, step: pos, lo: int, hi: int, env: Env)
    requires SingleStore(b).Some?
    ensures OneStore(LoopTrace(size, b, x, step, lo, hi, env), SingleStore(b).value)
    decreases b, 2, if lo < hi then hi - lo else 0
  {
    if lo < hi {
      NestActs(size, b, Bind(env, x, lo, step));
      NestLoop(size, b, x, step, lo + step, hi, env);
    }
  }

  predicate Hits(tr: seq<Act>, p: Coord) {
    exists a :: a in tr && InRegion(a.Where(), p)
  }

  /** The nest stores to every cell of the shape. */
  ghost predicate Covers(size: string -> pos, root: Stmt, shape: set<Coord>) {
    forall p :: p in shape ==> Hits(Trace(size, root, map[]), p)
  }

  /** Cells of `out` that already hold the template's value, as the nest runs. */
  ghost predicate FilledAt<S>(A: Arithmetic<S>, mem: Mem<Cells<S>>, out: Name, t: Template, p: Coord)
    requires Shaped(TLoads(t), mem, CellsOf(mem, out).Keys) && p in CellsOf(mem, out)
  {
    CellsOf(mem, out)[p] == ValueAt(A, t, mem, p)
  }

  lemma StoreFills<S(!new)>(A: Arithmetic<S>, a: Act, t: Template, ix: Index, mem: Mem<Cells<S>>, p: Coord)
    requires PointwiseArithmetic(A) && WellFormed(t) && a.tensor !in TLoads(t)
    requires a.value == Build(t, ix) && a.index == ix
    requires Shaped(TLoads(t), mem, CellsOf(mem, a.tensor).Keys) && p in CellsOf(mem, a.tensor)
    ensures var mem' := Step(A.Machine(), a, mem);
      && CellsOf(mem', a.tensor).Keys == CellsOf(mem, a.tensor).Keys
      && Shaped(TLoads(t), mem', CellsOf(mem', a.tensor).Keys)
      && (FilledAt(A, mem, a.tensor, t, p) || InRegion(a.Where(), p) ==> FilledAt(A, mem', a.tensor, t, p))
  {
    var M, c, r := A.Machine(), CellsOf(mem, a.tensor), a.Where();
    var mem' := Step(M, a, mem);
    EvalBuild(A, t, ix, a.env, mem, c.Keys);
    var v := TileOf(A, t, mem, c.Keys, r);
    assert Get(M, mem, a.tensor) == c;
    assert CellsOf(mem', a.tensor) == WriteCells(c, r, v);
    ValueAgree(A, t, mem, p, mem', p);
    if TLoads(t) == {} { ValueAgree(A, t, mem, p, mem, []); }
    if InRegion(r, p) {
      AbsoluteRelative(r, p);
      assert Relative(r, p) in RegionCoords(c.Keys, r);
    }
  }

  lemma {:induction false} NestFills<S(!new)>(A: Arithmetic<S>, tr: seq<Act>, out: Name, t: Template, ix: Index,
      mem: Mem<Cells<S>>, p: Coord)
    requires PointwiseArithmetic(A) && WellFormed(t) && out !in TLoads(t)
    requires OneStore(tr, Store(out, Build(t, ix), ix))
    requires Shaped(TLoads(t), mem, CellsOf(mem, out).Keys) && p in CellsOf(mem, out)
    ensures var mem' := Run(A.Machine(), tr, mem);
      && CellsOf(mem', out).Keys == CellsOf(mem, out).Keys
      && Shaped(TLoads(t), mem', CellsOf(mem', out).Keys)
      && (FilledAt(A, mem, out, t, p) || Hits(tr, p) ==> FilledAt(A, mem', out, t, p))
  {
    if tr != [] {
      assert tr[0] in tr;
      StoreFills(A, tr[0], t, ix, mem, p);
      var mem1 := Step(A.Machine(), tr[0], mem);
      NestFills(A, tr[1..], out, t, ix, mem1, p);
      if Hits(tr, p) && !InRegion(tr[0].Where(), p) {
        var a :| a in tr && InRegion(a.Where(), p);
        assert a in tr[1..];
      }
    }
  }

  lemma {:induction false} ShapesKept<S>(A: Arithmetic<S>, tr: seq<Act>, mem: Mem<Cells<S>>, n: Name)
    ensures CellsOf(Run(A.Machine(), tr, mem), n).Keys == CellsOf(mem, n).Keys
  {
    if tr != [] {
      ShapesKept(A, tr[1..], Step(A.Machine(), tr[0], mem), n);
    }
  }

  /** A producer nest that covers its tensor leaves the template's value in every cell. */
  lemma ProducerOffers<S(!new)>(A: Arithmetic<S>, root: Stmt, mem: Mem<Cells<S>>)
    requires PointwiseArithmetic(A) && SingleStore(root).Some?
    requires var store := SingleStore(root).value;
      && Extract(store.value, store.index).Some? && store.tensor !in Loads(store.value)
      && Shaped(Loads(store.value), mem, CellsOf(mem, store.tensor).Keys)
      && Covers(A.size, root, CellsOf(mem, store.tensor).Keys)
    ensures var store := SingleStore(root).value;
      Offers(A, Exec(A.Machine(), root, map[], mem), store.tensor, Extract(store.value, store.index).value)
  {
    var M, store := A.Machine(), SingleStore(root).value;
    var out, t := store.tensor, Extract(store.value, store.index).value;
    var tr := Trace(A.size, root, map[]);
    ExtractBuilds(store.value, store.index);
    NestActs(A.size, root, map[]);
    ExecIsRun(M, root, map[], mem);
    var mem' := Run(M, tr, mem);
    forall n ensures CellsOf(mem', n).Keys == CellsOf(mem, n).Keys { ShapesKept(A, tr, mem, n); }
    forall p | p in CellsOf(mem', out) ensures CellsOf(mem', out)[p] == ValueAt(A, t, mem', p) {
      NestFills(A, tr, out, t, store.index, mem, p);
    }
  }

  // ---------------------------------------------------------------------------------------------
  // Programs

  /** Every tensor is stored by one call only, and loaded only by that call and later ones. */
  ghost predicate SingleAssignment(calls: seq<Call>) {
    forall i, j :: 0 <= i < j < |calls| ==>
      StmtStores(calls[i].root) !! StmtStores(calls[j].root) && StmtLoads(calls[i].root) !! StmtStores(calls[j].root)
  }

  /** What an elementwise nest must satisfy: it covers its tensor, what it loads at the store's own
      index has the tensor's shape, and it does not load its own tensor. */
  ghost predicate GoodNest<S>(A: Arithmetic<S>, root: Stmt, mem: Mem<Cells<S>>)
    requires SingleStore(root).Some?
  {
    var store := SingleStore(root).value;
    var shape := CellsOf(mem, store.tensor).Keys;
    && Covers(A.size, root, shape)
    && (forall p :: p in LoadAccesses(store.value) && p.1 == store.index ==> CellsOf(mem, p.0).Keys == shape)
    && (Extract(store.value, store.index).Some? ==> store.tensor !in Loads(store.value))
  }

  /** Call i is a producer that a later call loads: the pass would inline it. */
  predicate Offered(calls: seq<Call>, outputs: set<Name>, i: nat)
    requires i < |calls|
  {
    Producer(calls[i], outputs).Some? && LoadedAfter(calls, i, calls[i].out)
  }

  ghost predicate LoadingNest<S>(A: Arithmetic<S>, root: Stmt, mem: Mem<Cells<S>>)
    requires SingleStore(root).Some?
  {
    GoodNest(A, root, mem) && Loads(SingleStore(root).value.value) != {}
  }

  /** What the pass would inline is a good nest that loads something. */
  ghost predicate LoadingNests<S>(A: Arithmetic<S>, calls: seq<Call>, outputs: set<Name>, mem: Mem<Cells<S>>) {
    forall i :: 0 <= i < |calls| && Offered(calls, outputs, i) ==> LoadingNest(A, calls[i].root, mem)
  }

  /** The consumers after call i keep what they store when the template is put in. */
  ghost predicate ConsumersAllow<S(!new)>(A: Arithmetic<S>, calls: seq<Call>, i: nat, t: Template, mem: Mem<Cells<S>>)
    requires i < |calls|
  {
    forall j :: i < j < |calls| ==> Allows(A, Trace(A.size, calls[j].root, map[]), calls[i].out, t, mem)
  }

  /** Every producer is a good nest when the worklist inlines it, and its consumers allow it. */
  ghost predicate InliningAllowed<S(!new)>(A: Arithmetic<S>, calls: seq<Call>, i: nat, outputs: set<Name>,
      mem: Mem<Cells<S>>)
    decreases |calls| - i
  {
    i + 1 >= |calls| ||
      match Producer(calls[i], outputs)
      case None => InliningAllowed(A, calls, i + 1, outputs, mem)
      case Some(t) =>
        if !LoadedAfter(calls, i, calls[i].out) then InliningAllowed(A, calls, i + 1, outputs, mem)
        else if Fails(calls, i, |calls|) then true
        else
          var calls' := Replaced(calls, i, t);
          && GoodNest(A, calls[i].root, mem) && ConsumersAllow(A, calls, i, t, mem)
          && (if calls' != calls &&
            !LoadedAfter(calls', i, calls[i].out) then InliningAllowed(A, Without(calls', i), i, outputs, mem)
              else InliningAllowed(A, calls', i + 1, outputs, mem))
  }

  lemma {:induction false} ExtractedLoads(e: Expr, ix: Index)
    requires Extract(e, ix).Some?
    ensures forall n :: n in Loads(e) ==> (n, ix) in LoadAccesses(e)
  {
    if e.Op? {
      forall n | n in Loads(e) ensures (n, ix) in LoadAccesses(e) {
        var a :| a in e.args && n in Loads(a);
        var k :| 0 <= k < |e.args| && e.args[k] == a;
        ExtractedLoads(a, ix);
      }
    }
  }

  // How inlining changes a nest.

  lemma {:induction false} SingleStoreInlined(s: Stmt, out: Name, t: Template)
    ensures SingleStore(InlineStmt(s, out, t)) == match SingleStore(s)
      case Some(store) => Some(InlineStmt(store, out, t))
      case None => None
  {
    match s
    case Store(_, _, _) =>
    case Seq(_, _) =>
    case Loop(_, _, _, _, b) => SingleStoreInlined(b, out, t);
    case Block(ss) => if |ss| == 1 { SingleStoreInlined(ss[0], out, t); }
  }

  lemma {:induction false} StoresInlined(s: Stmt, out: Name, t: Template)
    ensures StmtStores(InlineStmt(s, out, t)) == StmtStores(s)
  {
    match s
    case Store(_, _, _) =>
    case Seq(l, r) => StoresInlined(l, out, t); StoresInlined(r, out, t);
    case Loop(_, _, _, _, b) => StoresInlined(b, out, t);
    case Block(ss) =>
      forall k | 0 <= k < |ss|
        ensures StmtStores(InlineStmt(ss[k], out, t)) == StmtStores(ss[k])
      {
        StoresInlined(ss[k], out, t);
      }
      var rs := InlineStmts(ss, out, t);
      forall n ensures n in StmtStores(Block(rs)) <==> n in StmtStores(Block(ss)) {
        if n in StmtStores(Block(rs)) {
          var k :| 0 <= k < |rs| && n in StmtStores(rs[k]);
          assert ss[k] in ss;
        }
        if n in StmtStores(Block(ss)) {
          var k :| 0 <= k < |ss| && n in StmtStores(ss[k]);
          assert rs[k] in rs;
        }
      }
  }

  lemma {:induction false} BuildLoads(t: Template, ix: Index)
    ensures Loads(Build(t, ix)) == TLoads(t)
    ensures forall p :: p in LoadAccesses(Build(t, ix)) ==> p.0 in TLoads(t) && p.1 == ix
  {
    if t.TOp? {
      var bs := BuildAll(t.args, ix);
      forall k | 0 <= k < |t.args|
        ensures Loads(bs[k]) == TLoads(t.args[k]) && forall p :: p in LoadAccesses(bs[k]) ==>
          p.0 in TLoads(t.args[k]) && p.1 == ix
      {
        BuildLoads(t.args[k], ix);
      }
      SameLoads(t.args, bs, t.op);
      forall p | p in LoadAccesses(Build(t, ix)) ensures p.0 in TLoads(t) && p.1 == ix {
        var k :| 0 <= k < |bs| && p in LoadAccesses(bs[k]);
        assert t.args[k] in t.args;
      }
    }
  }

  /** What an inlined expression loads: what it loaded, with the template's loads where it loaded
      the producer's tensor. */
  lemma {:induction false} LoadsInlined(e: Expr, out: Name, t: Template)
    ensures Loads(InlineExpr(e, out, t)) <= Loads(e) + TLoads(t)
    ensures forall p :: p in LoadAccesses(InlineExpr(e, out, t)) ==>
      p in LoadAccesses(e) || (p.0 in TLoads(t) && (out, p.1) in LoadAccesses(e))
    ensures out !in Loads(e) ==> InlineExpr(e, out, t) == e
    ensures TLoads(t) != {} && Loads(e) != {} ==> Loads(InlineExpr(e, out, t)) != {}
    decreases e
  {
    match e
    case Load(n, jx) => BuildLoads(t, jx);
    case Const(_) =>
    case Arange(_) =>
    case Op(op, args) =>
      var rs := InlineExprs(args, out, t);
      forall k | 0 <= k < |args|
        ensures Loads(rs[k]) <= Loads(args[k]) + TLoads(t)
        ensures forall p :: p in LoadAccesses(rs[k]) ==>
          p in LoadAccesses(args[k]) || (p.0 in TLoads(t) && (out, p.1) in LoadAccesses(args[k]))
        ensures out !in Loads(args[k]) ==> rs[k] == args[k]
        ensures TLoads(t) != {} && Loads(args[k]) != {} ==> Loads(rs[k]) != {}
      {
        LoadsInlined(args[k], out, t);
      }
      LoadsInlinedArgs(op, args, rs, out, t);
      AccessesInlinedArgs(op, args, rs, out, t);
      if TLoads(t) != {} && Loads(e) != {} { SomeLoadInlined(op, args, rs); }
  }

  lemma LoadsInlinedArgs(op: Oper, args: seq<Expr>, rs: seq<Expr>, out: Name, t: Template)
    requires |rs| == |args|
    requires forall k :: 0 <= k < |args| ==> Loads(rs[k]) <= Loads(args[k]) + TLoads(t)
    requires forall k :: 0 <= k < |args| && out !in Loads(args[k]) ==> rs[k] == args[k]
    ensures Loads(Op(op, rs)) <= Loads(Op(op, args)) + TLoads(t)
    ensures out !in Loads(Op(op, args)) ==> rs == args
  {
    forall n | n in Loads(Op(op, rs)) ensures n in Loads(Op(op, args)) + TLoads(t) {
      var k :| 0 <= k < |rs| && n in Loads(rs[k]);
      assert args[k] in args;
    }
    if out !in Loads(Op(op, args)) {
      forall k | 0 <= k < |args| ensures rs[k] == args[k] { assert args[k] in args; }
    }
  }

  lemma AccessesInlinedArgs(op: Oper, args: seq<Expr>, rs: seq<Expr>, out: Name, t: Template)
    requires |rs| == |args|
    requires forall k, p :: 0 <= k < |args| && p in LoadAccesses(rs[k]) ==>
      p in LoadAccesses(args[k]) || (p.0 in TLoads(t) && (out, p.1) in LoadAccesses(args[k]))
    ensures forall p :: p in LoadAccesses(Op(op, rs)) ==>
      p in LoadAccesses(Op(op, args)) || (p.0 in TLoads(t) && (out, p.1) in LoadAccesses(Op(op, args)))
  {
    forall p | p in LoadAccesses(Op(op, rs))
      ensures p in LoadAccesses(Op(op, args)) || (p.0 in TLoads(t) && (out, p.1) in LoadAccesses(Op(op, args)))
    {
      var k :| 0 <= k < |rs| && p in LoadAccesses(rs[k]);
      assert args[k] in args;
    }
  }

  lemma SomeLoadInlined(op: Oper, args: seq<Expr>, rs: seq<Expr>)
    requires |rs| == |args| && Loads(Op(op, args)) != {}
    requires forall k :: 0 <= k < |args| && Loads(args[k]) != {} ==> Loads(rs[k]) != {}
    ensures Loads(Op(op, rs)) != {}
  {
    var n :| n in Loads(Op(op, args));
    var k :| 0 <= k < |args| && n in Loads(args[k]);
    var m :| m in Loads(rs[k]);
    assert rs[k] in rs && m in Loads(Op(op, rs));
  }

  /** An inlined value has a template only if the value had one. */
  lemma {:induction false} ExtractInlined(e: Expr, ix: Index, out: Name, t: Template)
    requires TLoads(t) != {} && Extract(InlineExpr(e, out, t), ix).Some?
    ensures Extract(e, ix).Some?
  {
    match e
    case Load(n, jx) =>
      if n == out {
        BuildLoads(t, jx);
        ExtractedLoads(Build(t, jx), ix);
        var m :| m in TLoads(t);
        assert (m, ix) in LoadAccesses(Build(t, jx));
        assert (m, ix).1 == jx;
      }
    case Const(_) =>
    case Arange(_) =>
    case Op(op, args) =>
      forall k | 0 <= k < |args| ensures Extract(args[k], ix).Some? { ExtractInlined(args[k], ix, out, t); }
  }

  /** Inlining a good producer's template keeps a nest good. */
  lemma LoadingNestInlined<S>(A: Arithmetic<S>, root: Stmt, mem: Mem<Cells<S>>, out: Name, t: Template)
    requires SingleStore(root).Some? && LoadingNest(A, root, mem)
    requires TLoads(t) != {} && Shaped(TLoads(t), mem, CellsOf(mem, out).Keys)
    requires StmtStores(root) !! TLoads(t)
    ensures SingleStore(InlineStmt(root, out, t)).Some? && LoadingNest(A, InlineStmt(root, out, t), mem)
  {
    var root' := InlineStmt(root, out, t);
    SingleStoreInlined(root, out, t);
    var store, store' := SingleStore(root).value, SingleStore(root').value;
    var shape := CellsOf(mem, store.tensor).Keys;
    NestActs(A.size, root, map[]);
    LoadsInlined(store.value, out, t);
    forall p | p in shape ensures Hits(Trace(A.size, root', map[]), p) {
      TraceInline(A.size, root, out, t, map[]);
      HitsInlined(Trace(A.size, root, map[]), out, t, p);
    }
    forall p | p in LoadAccesses(store'.value) && p.1 == store'.index ensures CellsOf(mem, p.0).Keys == shape {
      if p !in LoadAccesses(store.value) {
        assert (out, p.1) in LoadAccesses(store.value) && (out, p.1).1 == store.index;
      }
    }
    if Extract(store'.value, store'.index).Some? {
      ExtractInlined(store.value, store.index, out, t);
    }
  }

  lemma {:induction false} HitsInlined(tr: seq<Act>, out: Name, t: Template, p: Coord)
    requires Hits(tr, p)
    ensures Hits(InlineActs(tr, out, t), p)
  {
    var a :| a in tr && InRegion(a.Where(), p);
    if tr[0] == a {
      assert InlineAct(a, out, t).Where() == a.Where();
      assert InlineAct(a, out, t) in InlineActs(tr, out, t);
    } else {
      assert a in tr[1..];
      HitsInlined(tr[1..], out, t, p);
      var b :| b in InlineActs(tr[1..], out, t) && InRegion(b.Where(), p);
      assert b in InlineActs(tr, out, t);
    }
  }

  lemma {:induction false} StmtLoadsInlined(s: Stmt, out: Name, t: Template)
    ensures StmtLoads(InlineStmt(s, out, t)) <= StmtLoads(s) + TLoads(t)
    ensures out !in StmtLoads(s) ==> InlineStmt(s, out, t) == s
  {
    match s
    case Store(_, v, _) => LoadsInlined(v, out, t);
    case Seq(l, r) => StmtLoadsInlined(l, out, t); StmtLoadsInlined(r, out, t);
    case Loop(_, _, _, _, b) => StmtLoadsInlined(b, out, t);
    case Block(ss) =>
      var rs := InlineStmts(ss, out, t);
      forall k | 0 <= k < |ss|
        ensures StmtLoads(rs[k]) <= StmtLoads(ss[k]) + TLoads(t) && (out !in StmtLoads(ss[k]) ==> rs[k] == ss[k])
      {
        StmtLoadsInlined(ss[k], out, t);
      }
      forall n | n in StmtLoads(Block(rs)) ensures n in StmtLoads(s) + TLoads(t) {
        var k :| 0 <= k < |rs| && n in StmtLoads(rs[k]);
        assert ss[k] in ss;
      }
      if out !in StmtLoads(s) {
        forall k | 0 <= k < |ss| ensures rs[k] == ss[k] { assert ss[k] in ss; }
        assert rs == ss;
      }
  }

  // ---------------------------------------------------------------------------------------------
  // One step of the worklist

  function AllStores(calls: seq<Call>): set<Name> {
    set c, n | c in calls && n in StmtStores(c.root) :: n
  }

  /** Call i is a producer whose template may stand for its tensor. */
  ghost predicate GoodProducer<S>(A: Arithmetic<S>, calls: seq<Call>, i: nat, outputs: set<Name>, t: Template,
      mem: Mem<Cells<S>>)
  {
    && i < |calls| && Producer(calls[i], outputs) == Some(t)
    && SingleAssignment(calls) && GoodNest(A, calls[i].root, mem) && LoadedAfter(calls, i, calls[i].out)
  }

  lemma ProducerFacts<S>(A: Arithmetic<S>, calls: seq<Call>, i: nat, outputs: set<Name>, t: Template,
      mem: Mem<Cells<S>>)
    requires GoodProducer(A, calls, i, outputs, t, mem)
    ensures StmtStores(calls[i].root) == {calls[i].out} && calls[i].out !in outputs
    ensures TLoads(t) <= StmtLoads(calls[i].root) && calls[i].out !in TLoads(t)
    ensures TLoads(t) == Loads(SingleStore(calls[i].root).value.value)
    ensures Shaped(TLoads(t), mem, CellsOf(mem, calls[i].out).Keys)
  {
    var store := SingleStore(calls[i].root).value;
    NestActs(A.size, calls[i].root, map[]);
    ExtractBuilds(store.value, store.index);
    ExtractedLoads(store.value, store.index);
    NestLoads(calls[i].root);
    forall n | n in TLoads(t) ensures CellsOf(mem, n).Keys == CellsOf(mem, calls[i].out).Keys {
      assert (n, store.index) in LoadAccesses(store.value) && (n, store.index).0 == n;
    }
  }

  lemma {:induction false} NestLoads(s: Stmt)
    requires SingleStore(s).Some?
    ensures StmtLoads(s) == Loads(SingleStore(s).value.value)
  {
    match s
    case Store(_, _, _) =>
    case Seq(_, _) =>
    case Loop(_, _, _, _, b) => NestLoads(b);
    case Block(ss) =>
      NestLoads(ss[0]);
      assert StmtLoads(s) == StmtLoads(ss[0]);
  }

  /** Replacing the consumers keeps the program well formed. */
  lemma {:induction false} ExpStays(e: Expr, out: Name, t: Template)
    requires ContainsExp(e)
    ensures ContainsExp(InlineExpr(e, out, t))
  {
    if !e.op.Exp? {
      var a :| a in e.args && ContainsExp(a);
      var k :| 0 <= k < |e.args| && e.args[k] == a;
      ExpStays(a, out, t);
      assert InlineExprs(e.args, out, t)[k] in InlineExprs(e.args, out, t);
    }
  }

  lemma ProducerStores(c: Call, outputs: set<Name>)
    requires Producer(c, outputs).Some?
    ensures c.out in StmtStores(c.root)
  {
    NestActs(_ => 1, c.root, map[]);
  }

  /** Inlining makes no producer of a call that was none. */
  lemma ProducerInlined(c: Call, outputs: set<Name>, out: Name, t: Template)
    requires TLoads(t) != {} && Producer(Call(InlineStmt(c.root, out, t), c.out), outputs).Some?
    ensures Producer(c, outputs).Some?
  {
    SingleStoreInlined(c.root, out, t);
    var store := SingleStore(c.root).value;
    ExtractInlined(store.value, store.index, out, t);
    if ContainsExp(store.value) { ExpStays(store.value, out, t); }
  }

  /** A tensor that is loaded after a replacement was loaded before it: what the template loads, the
      replaced producer loads too. */
  lemma StillLoaded(calls: seq<Call>, i: nat, t: Template, j: nat)
    requires i < |calls| && j < |calls| && SingleAssignment(calls)
    requires TLoads(t) <= StmtLoads(calls[i].root) && TLoads(t) != {} && calls[i].out !in TLoads(t) &&
      calls[j].out in StmtStores(calls[j].root)
    requires LoadedAfter(Replaced(calls, i, t), j, calls[j].out)
    ensures LoadedAfter(calls, j, calls[j].out)
  {
    var n, calls' := calls[j].out, Replaced(calls, i, t);
    var k :| j < k < |calls'| && n in StmtLoads(calls'[k].root);
    StmtLoadsInlined(calls[k].root, calls[i].out, t);
    assert i < j ==> StmtLoads(calls[i].root) !! StmtStores(calls[j].root);
    assert n in TLoads(t) ==> j < i && n in StmtLoads(calls[i].root);
  }

  /** What is offered after a replacement was offered before it. */
  lemma ReplacedOffered(calls: seq<Call>, outputs: set<Name>, i: nat, t: Template, j: nat)
    requires i < |calls| && j < |calls| && SingleAssignment(calls)
    requires TLoads(t) <= StmtLoads(calls[i].root) && TLoads(t) != {} && calls[i].out !in TLoads(t)
    requires Offered(Replaced(calls, i, t), outputs, j)
    ensures Offered(calls, outputs, j)
  {
    if Replaced(calls, i, t)[j] != calls[j] { ProducerInlined(calls[j], outputs, calls[i].out, t); }
    ProducerStores(calls[j], outputs);
    StillLoaded(calls, i, t, j);
  }

  lemma ReplacedIsSingle<S>(A: Arithmetic<S>, calls: seq<Call>, i: nat, outputs: set<Name>, t: Template,
      mem: Mem<Cells<S>>)
    requires GoodProducer(A, calls, i, outputs, t, mem)
    ensures SingleAssignment(Replaced(calls, i, t)) && AllStores(Replaced(calls, i, t)) == AllStores(calls)
  {
    var calls', out := Replaced(calls, i, t), calls[i].out;
    ProducerFacts(A, calls, i, outputs, t, mem);
    forall j | 0 <= j < |calls|
      ensures StmtStores(calls'[j].root) == StmtStores(calls[j].root)
      ensures StmtLoads(calls'[j].root) <= StmtLoads(calls[j].root) + if i < j then TLoads(t) else {}
    {
      StoresInlined(calls[j].root, out, t);
      StmtLoadsInlined(calls[j].root, out, t);
    }
    SameStores(calls, calls');
  }

  lemma ReplacedIsLoading<S>(A: Arithmetic<S>, calls: seq<Call>, i: nat, outputs: set<Name>, t: Template,
      mem: Mem<Cells<S>>)
    requires GoodProducer(A, calls, i, outputs, t, mem) && LoadingNests(A, calls, outputs, mem)
    ensures LoadingNests(A, Replaced(calls, i, t), outputs, mem)
  {
    var calls', out := Replaced(calls, i, t), calls[i].out;
    ProducerFacts(A, calls, i, outputs, t, mem);
    assert Offered(calls, outputs, i);
    forall j | 0 <= j < |calls| && Offered(calls', outputs, j) ensures LoadingNest(A, calls'[j].root, mem) {
      ReplacedOffered(calls, outputs, i, t, j);
      assert Offered(calls, outputs, j);
      if calls'[j] != calls[j] { LoadingNestInlined(A, calls[j].root, mem, out, t); }
    }
  }

  lemma SameStores(calls: seq<Call>, calls': seq<Call>)
    requires |calls'| == |calls| && forall j :: 0 <= j < |calls| ==>
      StmtStores(calls'[j].root) == StmtStores(calls[j].root)
    ensures AllStores(calls') == AllStores(calls)
  {
    forall n ensures n in AllStores(calls') <==> n in AllStores(calls) {
      if n in AllStores(calls') {
        var j :| 0 <= j < |calls'| && n in StmtStores(calls'[j].root);
        assert calls[j] in calls;
      }
      if n in AllStores(calls) {
        var j :| 0 <= j < |calls| && n in StmtStores(calls[j].root);
        assert calls'[j] in calls';
      }
    }
  }

  function InlineTail(calls: seq<Call>, out: Name, t: Template): (r: seq<Call>)
    ensures |r| == |calls|
  {
    if calls == [] then []
    else
      [if out in StmtLoads(calls[0].root) then Call(InlineStmt(calls[0].root, out, t), calls[0].out) else calls[0]]
        + InlineTail(calls[1..], out, t)
  }

  lemma {:induction false} InlineTailAt(calls: seq<Call>, out: Name, t: Template, k: nat)
    requires k < |calls|
    ensures InlineTail(calls, out, t)[k] ==
      if out in StmtLoads(calls[k].root) then Call(InlineStmt(calls[k].root, out, t), calls[k].out) else calls[k]
  {
    if k > 0 { InlineTailAt(calls[1..], out, t, k - 1); }
  }

  lemma {:induction false} TailRuns<S(!new)>(A: Arithmetic<S>, calls: seq<Call>, out: Name, t: Template,
      mem: Mem<Cells<S>>, shape: Mem<Cells<S>>)
    requires PointwiseArithmetic(A) && Offers(A, mem, out, t) && SameKeys(mem, shape)
    requires forall j :: 0 <= j < |calls| ==> Allows(A, Trace(A.size, calls[j].root, map[]), out, t, shape)
    requires forall j :: 0 <= j < |calls| ==> StmtStores(calls[j].root) !! {out} + TLoads(t)
    ensures RunCalls(A.Machine(), InlineTail(calls, out, t), mem) == RunCalls(A.Machine(), calls, mem)
  {
    if calls != [] {
      var mem1 := Exec(A.Machine(), calls[0].root, map[], mem);
      InlineExec(A, calls[0].root, out, t, map[], mem, shape);
      forall n ensures CellsOf(mem1, n).Keys == CellsOf(mem, n).Keys {
        ExecIsRun(A.Machine(), calls[0].root, map[], mem);
        ShapesKept(A, Trace(A.size, calls[0].root, map[]), mem, n);
      }
      TailRuns(A, calls[1..], out, t, mem1, shape);
    }
  }

  lemma {:induction false} CallsKeepShapes<S>(A: Arithmetic<S>, calls: seq<Call>, mem: Mem<Cells<S>>, n: Name)
    ensures CellsOf(RunCalls(A.Machine(), calls, mem), n).Keys == CellsOf(mem, n).Keys
  {
    if calls != [] {
      ExecIsRun(A.Machine(), calls[0].root, map[], mem);
      ShapesKept(A, Trace(A.size, calls[0].root, map[]), mem, n);
      CallsKeepShapes(A, calls[1..], Exec(A.Machine(), calls[0].root, map[], mem), n);
    }
  }

  lemma ReplacedTail(calls: seq<Call>, i: nat, t: Template)
    requires i < |calls|
    ensures var calls' := Replaced(calls, i, t);
      calls'[..i] == calls[..i] && calls'[i] == calls[i] &&
        calls'[i + 1..] == InlineTail(calls[i + 1..], calls[i].out, t)
  {
    var calls', tail := Replaced(calls, i, t), calls[i + 1..];
    forall j | 0 <= j < |tail| ensures InlineTail(tail, calls[i].out, t)[j] == calls'[i + 1 + j] {
      InlineTailAt(tail, calls[i].out, t, j);
      assert tail[j] == calls[i + 1 + j];
    }
  }

  /** The producer establishes its offer where it runs. */
  lemma ProducerRuns<S(!new)>(A: Arithmetic<S>, calls: seq<Call>, i: nat, outputs: set<Name>, t: Template,
      mem: Mem<Cells<S>>, mem1: Mem<Cells<S>>)
    requires PointwiseArithmetic(A) && GoodProducer(A, calls, i, outputs, t, mem)
    requires forall n :: CellsOf(mem1, n).Keys == CellsOf(mem, n).Keys
    ensures Offers(A, Exec(A.Machine(), calls[i].root, map[], mem1), calls[i].out, t)
  {
    var store := SingleStore(calls[i].root).value;
    ProducerFacts(A, calls, i, outputs, t, mem);
    ExtractBuilds(store.value, store.index);
    ProducerOffers(A, calls[i].root, mem1);
  }

  /** Replacing the consumers does not change the program. */
  lemma ReplacedRuns<S(!new)>(A: Arithmetic<S>, calls: seq<Call>, i: nat, outputs: set<Name>, t: Template,
      mem: Mem<Cells<S>>)
    requires PointwiseArithmetic(A) && GoodProducer(A, calls, i, outputs, t, mem) && ConsumersAllow(A, calls, i, t, mem)
    ensures RunCalls(A.Machine(), Replaced(calls, i, t), mem) == RunCalls(A.Machine(), calls, mem)
  {
    var M, out, tail := A.Machine(), calls[i].out, calls[i + 1..];
    var mem1 := RunCalls(M, calls[..i], mem);
    forall n ensures CellsOf(mem1, n).Keys == CellsOf(mem, n).Keys { CallsKeepShapes(A, calls[..i], mem, n); }
    ProducerRuns(A, calls, i, outputs, t, mem, mem1);
    ProducerFacts(A, calls, i, outputs, t, mem);
    forall j | 0 <= j < |tail|
      ensures StmtStores(tail[j].root) !! {out} + TLoads(t) &&
        Allows(A, Trace(A.size, tail[j].root, map[]), out, t, mem)
    {
      assert tail[j] == calls[i + 1 + j];
    }
    var mem2 := Exec(M, calls[i].root, map[], mem1);
    forall n ensures CellsOf(mem2, n).Keys == CellsOf(mem, n).Keys {
      ExecIsRun(M, calls[i].root, map[], mem1);
      ShapesKept(A, Trace(A.size, calls[i].root, map[]), mem1, n);
    }
    TailRuns(A, tail, out, t, mem2, mem);
    ReplacedTail(calls, i, t);
    RunCallsAt(M, calls, i, mem);
    RunCallsAt(M, Replaced(calls, i, t), i, mem);
  }

  ghost predicate SameExcept<S>(m1: Mem<Cells<S>>, m2: Mem<Cells<S>>, dropped: set<Name>) {
    forall n :: n !in dropped ==> CellsOf(m1, n) == CellsOf(m2, n)
  }

  lemma {:induction false} CallsAgree<S>(A: Arithmetic<S>, calls: seq<Call>, m1: Mem<Cells<S>>, m2: Mem<Cells<S>>,
      out: Name)
    requires SameExcept(m1, m2, {out}) && forall c :: c in calls ==> out !in StmtLoads(c.root)
    ensures SameExcept(RunCalls(A.Machine(), calls, m1), RunCalls(A.Machine(), calls, m2), {out})
  {
    if calls != [] {
      var M, rest := A.Machine(), AllBut({out});
      assert forall n, mem: Mem<Cells<S>> :: CellsOf(mem, n) == Get(M, mem, n);
      ExecAgree(M, calls[0].root, map[], rest, m1, m2);
      CallsAgree(A, calls[1..], Exec(M, calls[0].root, map[], m1), Exec(M, calls[0].root, map[], m2), out);
    }
  }

  /** A producer nothing loads any more can go; only its own tensor differs. */
  lemma DroppedRuns<S>(A: Arithmetic<S>, calls: seq<Call>, i: nat, mem: Mem<Cells<S>>)
    requires i < |calls| && StmtStores(calls[i].root) == {calls[i].out} && !LoadedAfter(calls, i, calls[i].out)
    ensures SameExcept(RunCalls(A.Machine(), Without(calls, i), mem), RunCalls(A.Machine(), calls, mem), {calls[i].out})
  {
    var M, tail, out := A.Machine(), calls[i + 1..], calls[i].out;
    var mem1 := RunCalls(M, calls[..i], mem);
    RunCallsAppend(M, calls[..i], tail, mem);
    RunCallsAt(M, calls, i, mem);
    var mem2 := Exec(M, calls[i].root, map[], mem1);
    forall n | n != out ensures CellsOf(mem1, n) == CellsOf(mem2, n) {
      ExecFrame(M, calls[i].root, map[], mem1, n);
    }
    assert forall j :: 0 <= j < |tail| ==> tail[j] == calls[i + 1 + j];
    CallsAgree(A, tail, mem1, mem2, out);
  }

  lemma WithoutAt(calls: seq<Call>, i: nat, j: nat)
    requires i < |calls| && j < |calls| && j != i
    ensures var k := if j < i then j else j - 1; k < |Without(calls, i)| && Without(calls, i)[k] == calls[j]
  {
  }

  lemma StoresWithout(calls: seq<Call>, i: nat)
    requires i < |calls| && SingleAssignment(calls)
    ensures AllStores(Without(calls, i)) == AllStores(calls) - StmtStores(calls[i].root)
  {
    var rest := Without(calls, i);
    forall n | n in AllStores(rest) ensures n in AllStores(calls) && n !in StmtStores(calls[i].root) {
      var j :| 0 <= j < |rest| && n in StmtStores(rest[j].root);
      var m := if j < i then j else j + 1;
      WithoutAt(calls, i, m);
      assert n in StmtStores(calls[m].root);
    }
    forall n | n in AllStores(calls) && n !in StmtStores(calls[i].root) ensures n in AllStores(rest) {
      var j :| 0 <= j < |calls| && n in StmtStores(calls[j].root);
      WithoutAt(calls, i, j);
    }
  }

  lemma DroppedIsSingle(calls: seq<Call>, i: nat)
    requires i < |calls| && SingleAssignment(calls)
    ensures SingleAssignment(Without(calls, i))
  {
    var rest := Without(calls, i);
    assert forall j :: 0 <= j < |rest| ==> rest[j] == calls[if j < i then j else j + 1];
  }

  lemma DroppedIsLoading<S>(A: Arithmetic<S>, calls: seq<Call>, outputs: set<Name>, i: nat, mem: Mem<Cells<S>>)
    requires i < |calls| && LoadingNests(A, calls, outputs, mem)
    ensures LoadingNests(A, Without(calls, i), outputs, mem)
  {
    var rest := Without(calls, i);
    assert forall j :: 0 <= j < |rest| ==> rest[j] == calls[if j < i then j else j + 1];
    forall j | 0 <= j < |rest| && Offered(rest, outputs, j) ensures LoadingNest(A, rest[j].root, mem) {
      var m := if j < i then j else j + 1;
      var k :| j < k < |rest| && rest[j].out in StmtLoads(rest[k].root);
      assert rest[k] == calls[if k < i then k else k + 1];
      assert Offered(calls, outputs, m);
    }
  }

  /** What the pass may change: the tensors of the calls it drops, and no output is one of them. */
  ghost predicate InlinedRight<S>(A: Arithmetic<S>, calls: seq<Call>, result: seq<Call>, outputs: set<Name>,
      mem: Mem<Cells<S>>)
  {
    && AllStores(result) <= AllStores(calls)
    && outputs !! AllStores(calls) - AllStores(result)
    && SameExcept(RunCalls(A.Machine(), result, mem), RunCalls(A.Machine(), calls, mem),
      AllStores(calls) - AllStores(result))
  }

  lemma DroppedRight<S(!new)>(A: Arithmetic<S>, calls: seq<Call>, i: nat, outputs: set<Name>, t: Template,
      result: seq<Call>, mem: Mem<Cells<S>>)
    requires PointwiseArithmetic(A) && GoodProducer(A, calls, i, outputs, t, mem) &&
      !LoadedAfter(Replaced(calls, i, t), i, calls[i].out)
    requires RunCalls(A.Machine(), Replaced(calls, i, t), mem) == RunCalls(A.Machine(), calls, mem)
    requires InlinedRight(A, Without(Replaced(calls, i, t), i), result, outputs, mem)
    ensures InlinedRight(A, calls, result, outputs, mem)
  {
    var calls' := Replaced(calls, i, t);
    ProducerFacts(A, calls, i, outputs, t, mem);
    ReplacedIsSingle(A, calls, i, outputs, t, mem);
    StoresWithout(calls', i);
    DroppedRuns(A, calls', i, mem);
  }

  /** The whole worklist: on single-assignment programs whose producers are good nests and whose consumers
      allow them, the pass leaves every tensor with the same contents except those of the calls it drops,
      and it drops no output. */
  lemma {:induction false} InliningPreserves<S(!new)>(A: Arithmetic<S>, calls: seq<Call>, i: nat, outputs: set<Name>,
      mem: Mem<Cells<S>>)
    requires PointwiseArithmetic(A) && SingleAssignment(calls) && InliningAllowed(A, calls, i, outputs, mem)
    ensures InlineFrom(calls, i, outputs).Inlined? ==>
      InlinedRight(A, calls, InlineFrom(calls, i, outputs).calls, outputs, mem)
    decreases |calls| - i
  {
    if i + 1 < |calls| {
      match Producer(calls[i], outputs)
      case None => InliningPreserves(A, calls, i + 1, outputs, mem);
      case Some(t) =>
        if !LoadedAfter(calls, i, calls[i].out) {
          InliningPreserves(A, calls, i + 1, outputs, mem);
        } else if !Fails(calls, i, |calls|) {
          var calls' := Replaced(calls, i, t);
          ReplacedIsSingle(A, calls, i, outputs, t, mem);
          ReplacedRuns(A, calls, i, outputs, t, mem);
          if calls' != calls && !LoadedAfter(calls', i, calls[i].out) {
            DroppedIsSingle(calls', i);
            InliningPreserves(A, Without(calls', i), i, outputs, mem);
            if InlineFrom(Without(calls', i), i, outputs).Inlined? {
              DroppedRight(A, calls, i, outputs, t, InlineFrom(Without(calls', i), i, outputs).calls, mem);
            }
          } else {
            InliningPreserves(A, calls', i + 1, outputs, mem);
          }
        }
    }
  }

  lemma LoadingStep<S(!new)>(A: Arithmetic<S>, calls: seq<Call>, i: nat, outputs: set<Name>, t: Template,
      mem: Mem<Cells<S>>)
    requires i < |calls| && SingleAssignment(calls) && LoadingNests(A, calls, outputs, mem)
    requires Producer(calls[i], outputs) == Some(t) && LoadedAfter(calls, i, calls[i].out)
    ensures GoodNest(A, calls[i].root, mem) && ConsumersAllow(A, calls, i, t, mem)
    ensures var calls' := Replaced(calls, i, t);
      && SingleAssignment(calls') && LoadingNests(A, calls', outputs, mem)
      && SingleAssignment(Without(calls', i)) && LoadingNests(A, Without(calls', i), outputs, mem)
  {
    var calls' := Replaced(calls, i, t);
    assert Offered(calls, outputs, i);
    ProducerFacts(A, calls, i, outputs, t, mem);
    ReplacedIsSingle(A, calls, i, outputs, t, mem);
    ReplacedIsLoading(A, calls, i, outputs, t, mem);
    DroppedIsSingle(calls', i);
    DroppedIsLoading(A, calls', outputs, i, mem);
  }

  lemma AllowedStep<S(!new)>(A: Arithmetic<S>, calls: seq<Call>, i: nat, outputs: set<Name>, t: Template,
      mem: Mem<Cells<S>>)
    requires i + 1 < |calls| && Producer(calls[i], outputs) == Some(t) && LoadedAfter(calls, i, calls[i].out)
    requires GoodNest(A, calls[i].root, mem) && ConsumersAllow(A, calls, i, t, mem)
    requires var calls' := Replaced(calls, i, t);
      if calls' != calls && !LoadedAfter(calls', i, calls[i].out) then
        InliningAllowed(A, Without(calls', i), i, outputs, mem)
      else InliningAllowed(A, calls', i + 1, outputs, mem)
    ensures InliningAllowed(A, calls, i, outputs, mem)
  {
  }

  /** Where every producer loads something the consumers need no condition: it is enough to look at the
      nests of the original program. */
  lemma {:induction false} LoadingNestsAllowed<S(!new)>(A: Arithmetic<S>, calls: seq<Call>, i: nat, outputs: set<Name>,
      mem: Mem<Cells<S>>)
    requires SingleAssignment(calls) && LoadingNests(A, calls, outputs, mem)
    ensures InliningAllowed(A, calls, i, outputs, mem)
    decreases |calls| - i
  {
    if i + 1 < |calls| {
      match Producer(calls[i], outputs)
      case None => LoadingNestsAllowed(A, calls, i + 1, outputs, mem);
      case Some(t) =>
        if !LoadedAfter(calls, i, calls[i].out) {
          LoadingNestsAllowed(A, calls, i + 1, outputs, mem);
        } else if !Fails(calls, i, |calls|) {
          var calls' := Replaced(calls, i, t);
          LoadingStep(A, calls, i, outputs, t, mem);
          if calls' != calls && !LoadedAfter(calls', i, calls[i].out) {
            LoadingNestsAllowed(A, Without(calls', i), i, outputs, mem);
          } else {
            LoadingNestsAllowed(A, calls', i + 1, outputs, mem);
          }
          AllowedStep(A, calls, i, outputs, t, mem);
        }
    }
  }
}
