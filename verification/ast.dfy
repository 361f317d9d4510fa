/** The tile IR the compiler passes work on (frontend/ir/AST.py), in the fragment without
    `If`, `Let` and `Take`.  Operators with a fixed number of operands and the generic calls
    share one n-ary constructor; its operands are listed in evaluation order. */
module Ast {
  type Name = string

  datatype Option<+T> = None | Some(value: T)

  /** One coordinate of an index. */
  datatype Atom =
    | Tile(name: Name)
    | TileOffset(name: Name, offset: int)
    | ConstTile(start: int, interval: int)
    | FullTile
    | Elem(name: Name)

  type Index = seq<Atom>

  datatype Bound = Num(n: int) | VarRef(name: Name)

  datatype Oper =
    | Add | Sub | Mul | Div | Max | Min | Matmul
    | Exp | Sqr | Sqrt | Sigmoid
    | Cast(dtype: string)
    | ReduceSum(axis: int) | ReduceMax(axis: int) | ReduceMin(axis: int)
    | Broadcast(axis: int) | Concat(axis: int)
    | Permute3(d0: int, d1: int, d2: int)
    | Squeeze(axis: int) | Unsqueeze(axis: int)
    | GenericBinary(op: string) | GenericCall(func: string)

  datatype Expr =
    | Load(tensor: Name, index: Index)
    | Const(text: string)
    | Arange(axis: Name)
    | Op(op: Oper, args: seq<Expr>)

  datatype Stmt =
    | Store(tensor: Name, value: Expr, index: Index)
    | Loop(start: Bound, end: Bound, tile: string, loopVar: Name, body: Stmt)
    | Seq(left: Stmt, right: Stmt)
    | Block(stmts: seq<Stmt>)

  /** One call of a lowered function: its root and the tensor it is there to produce. */
  datatype Call = Call(root: Stmt, out: Name)

  /** Names of the tensors an expression loads. */
  function Loads(e: Expr): set<Name> {
    match e
    case Load(t, _) => {t}
    case Const(_) => {}
    case Arange(_) => {}
    case Op(_, args) => set a, n | a in args && n in Loads(a) :: n
  }

  /** Names of the tensors a statement loads anywhere. */
  function StmtLoads(s: Stmt): set<Name> {
    match s
    case Store(_, v, _) => Loads(v)
    case Loop(_, _, _, _, b) => StmtLoads(b)
    case Seq(l, r) => StmtLoads(l) + StmtLoads(r)
    case Block(ss) => set c, n | c in ss && n in StmtLoads(c) :: n
  }

  /** Names of the tensors a statement stores to. */
  function StmtStores(s: Stmt): set<Name> {
    match s
    case Store(t, _, _) => {t}
    case Loop(_, _, _, _, b) => StmtStores(b)
    case Seq(l, r) => StmtStores(l) + StmtStores(r)
    case Block(ss) => set c, n | c in ss && n in StmtStores(c) :: n
  }

  /** Loop variables bound anywhere in a statement. */
  function LoopVars(s: Stmt): set<Name> {
    match s
    case Store(_, _, _) => {}
    case Loop(_, _, _, x, b) => {x} + LoopVars(b)
    case Seq(l, r) => LoopVars(l) + LoopVars(r)
    case Block(ss) => set c, n | c in ss && n in LoopVars(c) :: n
  }
}
