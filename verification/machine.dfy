/** What a program of the tile IR means.  A machine fixes the contents type `C` of a tensor, the
    type `V` of tile values, and how tiles are read, written and combined.  A theorem about a pass
    names the machines it is for: any, those that keep regions apart, or the tensors of cells of
    module Elements with any arithmetic.  Tile variables and elements are
    resolved as the code generator does: a tile starts at the loop variable, an element is the
    number of the tile, and a variable no loop binds is a single index 0.
    Main results: the interpreter runs exactly the straight-line form of a statement (ExecIsRun),
    changes only what it stores (ExecFrame) and depends only on what it loads (ExecAgree). */
module Machines {
  import opened Ast
  import opened LoopNames

  type pos = x: int | x > 0 witness 1

  datatype Binding = Binding(value: int, step: pos)
  type Env = map<Name, Binding>

  /** An index coordinate with the loop variables filled in. */
  datatype Extent = Span(lo: int, len: int) | Point(at: int) | Full
  type Region = seq<Extent>

  datatype Machine<!C, !V> = Machine(
    tileSize: string -> pos,
    empty: C,
    read: (C, Region) -> V,
    write: (C, Region, V) -> C,
    lit: string -> V,
    arange: (int, int) -> V,
    apply: (Oper, seq<V>) -> V)

  type Mem<C> = map<Name, C>

  function Get<C, V>(M: Machine<C, V>, mem: Mem<C>, t: Name): C {
    if t in mem then mem[t] else M.empty
  }

  /** What a loop variable stands for, under any of its spellings. */
  function Lookup(env: Env, x: Name): Binding {
    if Clean(x) in env then env[Clean(x)] else Binding(0, 1)
  }

  /** An environment is keyed by clean names: `v_x` and `x` are one variable. */
  function Bind(env: Env, x: Name, value: int, step: pos): Env {
    env[Clean(x) := Binding(value, step)]
  }

  lemma LookupBind(env: Env, x: Name, value: int, step: pos, y: Name)
    ensures Lookup(Bind(env, x, value, step), y) == if Clean(x) ==
      Clean(y) then Binding(value, step) else Lookup(env, y)
  {
  }

  function Resolve(a: Atom, env: Env): Extent {
    match a
    case Tile(x) => Span(Lookup(env, x).value, Lookup(env, x).step)
    case TileOffset(x, k) => Span(Lookup(env, x).value + k, Lookup(env, x).step)
    case ConstTile(s, n) => Span(s, n)
    case FullTile => Full
    case Elem(x) => Point(Lookup(env, x).value / Lookup(env, x).step)
  }

  function ResolveAll(ix: Index, env: Env): Region {
    seq(|ix|, k requires 0 <= k < |ix| => Resolve(ix[k], env))
  }

  function BoundValue(b: Bound, env: Env): int {
    match b
    case Num(n) => n
    case VarRef(x) => Lookup(env, x).value
  }

  function Eval<C, V>(M: Machine<C, V>, e: Expr, env: Env, mem: Mem<C>): V
    decreases e, 1
  {
    match e
    case Load(t, ix) => M.read(Get(M, mem, t), ResolveAll(ix, env))
    case Const(c) => M.lit(c)
    case Arange(x) => M.arange(Lookup(env, x).value, Lookup(env, x).step)
    case Op(op, args) => M.apply(op, EvalAll(M, args, env, mem))
  }

  function EvalAll<C, V>(M: Machine<C, V>, args: seq<Expr>, env: Env, mem: Mem<C>): (vs: seq<V>)
    ensures |vs| == |args|
    ensures forall k :: 0 <= k < |args| ==> vs[k] == Eval(M, args[k], env, mem)
    decreases args, 0
  {
    seq(|args|, k requires 0 <= k < |args| => Eval(M, args[k], env, mem))
  }

  /** The statement interpreter. */
  function Exec<C, V>(M: Machine<C, V>, s: Stmt, env: Env, mem: Mem<C>): Mem<C>
    decreases s, 1, 0
  {
    match s
    case Store(t, v, ix) =>
      mem[t := M.write(Get(M, mem, t), ResolveAll(ix, env), Eval(M, v, env, mem))]
    case Loop(lo, hi, tile, x, b) =>
      Iterate(M, b, x, M.tileSize(tile), BoundValue(lo, env), BoundValue(hi, env), env, mem)
    case Seq(l, r) => Exec(M, r, env, Exec(M, l, env, mem))
    case Block(ss) => ExecAll(M, ss, env, mem)
  }

  function Iterate<C, V>(M: Machine<C, V>, b: Stmt, x: Name, step: pos, lo: int, hi: int, env: Env, mem: Mem<C>): Mem<C>
    decreases b, 2, if lo < hi then hi - lo else 0
  {
    if lo >= hi then mem
    else Iterate(M, b, x, step, lo + step, hi, env, Exec(M, b, Bind(env, x, lo, step), mem))
  }

  function ExecAll<C, V>(M: Machine<C, V>, ss: seq<Stmt>, env: Env, mem: Mem<C>): Mem<C>
    decreases ss, 0, 0
  {
    if ss == [] then mem else ExecAll(M, ss[1..], env, Exec(M, ss[0], env, mem))
  }

  // ---------------------------------------------------------------------------------------------
  // Straight-line form.  Control flow never depends on data, so a statement under an environment
  // is a fixed sequence of tile stores.

  /** One executed store, with the environment it runs in. */
  datatype Act = Act(tensor: Name, value: Expr, index: Index, env: Env)
  {
    function Where(): Region { ResolveAll(index, env) }
  }

  function Trace(size: string -> pos, s: Stmt, env: Env): seq<Act>
    decreases s, 1, 0
  {
    match s
    case Store(t, v, ix) => [Act(t, v, ix, env)]
    case Loop(lo, hi, tile, x, b) =>
      LoopTrace(size, b, x, size(tile), BoundValue(lo, env), BoundValue(hi, env), env)
    case Seq(l, r) => Trace(size, l, env) + Trace(size, r, env)
    case Block(ss) => TraceAll(size, ss, env)
  }

  function LoopTrace(size: string -> pos, b: Stmt, x: Name, step: pos, lo: int, hi: int, env: Env): seq<Act>
    decreases b, 2, if lo < hi then hi - lo else 0
  {
    if lo >= hi then []
    else Trace(size, b, Bind(env, x, lo, step)) + LoopTrace(size, b, x, step, lo + step, hi, env)
  }

  function TraceAll(size: string -> pos, ss: seq<Stmt>, env: Env): seq<Act>
    decreases ss, 0, 0
  {
    if ss == [] then [] else Trace(size, ss[0], env) + TraceAll(size, ss[1..], env)
  }

  function Step<C, V>(M: Machine<C, V>, a: Act, mem: Mem<C>): Mem<C> {
    mem[a.tensor := M.write(Get(M, mem, a.tensor), a.Where(), Eval(M, a.value, a.env, mem))]
  }

  function Run<C, V>(M: Machine<C, V>, tr: seq<Act>, mem: Mem<C>): Mem<C> {
    if tr == [] then mem else Run(M, tr[1..], Step(M, tr[0], mem))
  }

  lemma {:induction false} RunAppend<C, V>(M: Machine<C, V>, x: seq<Act>, y: seq<Act>, mem: Mem<C>)
    ensures Run(M, x + y, mem) == Run(M, y, Run(M, x, mem))
  {
    if x == [] {
      assert x + y == y;
    } else {
      assert (x + y)[1..] == x[1..] + y;
      RunAppend(M, x[1..], y, Step(M, x[0], mem));
    }
  }

  /** The interpreter runs exactly the straight-line form. */
  lemma {:induction false} ExecIsRun<C, V>(M: Machine<C, V>, s: Stmt, env: Env, mem: Mem<C>)
    ensures Exec(M, s, env, mem) == Run(M, Trace(M.tileSize, s, env), mem)
    decreases s, 1, 0
  {
    match s
    case Store(t, v, ix) =>
      var a := Act(t, v, ix, env);
      assert Run(M, [a], mem) == Run(M, [a][1..], Step(M, a, mem));
    case Loop(lo, hi, tile, x, b) =>
      IterateIsRun(M, b, x, M.tileSize(tile), BoundValue(lo, env), BoundValue(hi, env), env, mem);
    case Seq(l, r) =>
      ExecIsRun(M, l, env, mem);
      ExecIsRun(M, r, env, Exec(M, l, env, mem));
      RunAppend(M, Trace(M.tileSize, l, env), Trace(M.tileSize, r, env), mem);
    case Block(ss) => ExecAllIsRun(M, ss, env, mem);
  }

  lemma {:induction false} IterateIsRun<C, V>(M: Machine<C, V>, b: Stmt, x: Name, step: pos, lo: int, hi: int, env: Env,
      mem: Mem<C>)
    ensures Iterate(M, b, x, step, lo, hi, env, mem) == Run(M, LoopTrace(M.tileSize, b, x, step, lo, hi, env), mem)
    decreases b, 2, if lo < hi then hi - lo else 0
  {
    if lo < hi {
      var env' := Bind(env, x, lo, step);
      ExecIsRun(M, b, env', mem);
      IterateIsRun(M, b, x, step, lo + step, hi, env, Exec(M, b, env', mem));
      RunAppend(M, Trace(M.tileSize, b, env'), LoopTrace(M.tileSize, b, x, step, lo + step, hi, env), mem);
    }
  }

  lemma {:induction false} ExecAllIsRun<C, V>(M: Machine<C, V>, ss: seq<Stmt>, env: Env, mem: Mem<C>)
    ensures ExecAll(M, ss, env, mem) == Run(M, TraceAll(M.tileSize, ss, env), mem)
    decreases ss, 0, 0
  {
    if ss != [] {
      ExecIsRun(M, ss[0], env, mem);
      ExecAllIsRun(M, ss[1..], env, Exec(M, ss[0], env, mem));
      RunAppend(M, Trace(M.tileSize, ss[0], env), TraceAll(M.tileSize, ss[1..], env), mem);
    }
  }

  // ---------------------------------------------------------------------------------------------
  // What a statement touches.

  ghost predicate Agree<C, V>(M: Machine<C, V>, S: iset<Name>, m1: Mem<C>, m2: Mem<C>) {
    forall t :: t in S ==> Get(M, m1, t) == Get(M, m2, t)
  }

  ghost function AllBut(names: set<Name>): iset<Name> {
    iset n: Name | n !in names
  }

  /** Every act of a trace stores one of `stores` and loads only `loads`. */
  ghost predicate Touches(tr: seq<Act>, loads: set<Name>, stores: set<Name>) {
    forall a :: a in tr ==> a.tensor in stores && Loads(a.value) <= loads
  }

  lemma {:induction false} TraceTouches(size: string -> pos, s: Stmt, env: Env)
    ensures Touches(Trace(size, s, env), StmtLoads(s), StmtStores(s))
    decreases s, 1, 0
  {
    match s
    case Store(t, v, ix) =>
    case Loop(lo, hi, tile, x, b) =>
      LoopTouches(size, b, x, size(tile), BoundValue(lo, env), BoundValue(hi, env), env);
    case Seq(l, r) =>
      TraceTouches(size, l, env);
      TraceTouches(size, r, env);
    case Block(ss) => AllTouches(size, ss, env, StmtLoads(s), StmtStores(s));
  }

  lemma {:induction false} LoopTouches(size: string -> pos, b: Stmt, x: Name, step: pos, lo: int, hi: int, env: Env)
    ensures Touches(LoopTrace(size, b, x, step, lo, hi, env), StmtLoads(b), StmtStores(b))
    decreases b, 2, if lo < hi then hi - lo else 0
  {
    if lo < hi {
      TraceTouches(size, b, Bind(env, x, lo, step));
      LoopTouches(size, b, x, step, lo + step, hi, env);
    }
  }

  lemma {:induction false} AllTouches(size: string -> pos, ss: seq<Stmt>, env: Env, loads: set<Name>, stores: set<Name>)
    requires forall c :: c in ss ==> StmtLoads(c) <= loads && StmtStores(c) <= stores
    ensures Touches(TraceAll(size, ss, env), loads, stores)
    decreases ss, 0, 0
  {
    if ss != [] {
      TraceTouches(size, ss[0], env);
      AllTouches(size, ss[1..], env, loads, stores);
    }
  }

  lemma {:induction false} EvalAgree<C, V>(M: Machine<C, V>, e: Expr, env: Env, S: iset<Name>, m1: Mem<C>, m2: Mem<C>)
    requires Agree(M, S, m1, m2) && forall t :: t in Loads(e) ==> t in S
    ensures Eval(M, e, env, m1) == Eval(M, e, env, m2)
  {
    match e
    case Load(t, _) => assert t in Loads(e);
    case Const(_) =>
    case Arange(_) =>
    case Op(op, args) =>
      forall k | 0 <= k < |args|
        ensures Eval(M, args[k], env, m1) == Eval(M, args[k], env, m2)
      {
        forall t | t in Loads(args[k]) ensures t in S { assert t in Loads(e); }
        EvalAgree(M, args[k], env, S, m1, m2);
      }
      assert EvalAll(M, args, env, m1) == EvalAll(M, args, env, m2);
  }

  lemma {:induction false} RunAgree<C, V>(M: Machine<C, V>, tr: seq<Act>, S: iset<Name>, m1: Mem<C>, m2: Mem<C>)
    requires Agree(M, S, m1, m2) && forall a, t :: a in tr && t in Loads(a.value) ==> t in S
    ensures Agree(M, S, Run(M, tr, m1), Run(M, tr, m2))
  {
    if tr != [] {
      assert tr[0] in tr;
      EvalAgree(M, tr[0].value, tr[0].env, S, m1, m2);
      RunAgree(M, tr[1..], S, Step(M, tr[0], m1), Step(M, tr[0], m2));
    }
  }

  lemma {:induction false} RunFrame<C, V>(M: Machine<C, V>, tr: seq<Act>, t: Name, mem: Mem<C>)
    requires forall a :: a in tr ==> a.tensor != t
    ensures Get(M, Run(M, tr, mem), t) == Get(M, mem, t)
  {
    if tr != [] {
      assert tr[0] in tr;
      RunFrame(M, tr[1..], t, Step(M, tr[0], mem));
    }
  }

  /** A statement changes only the tensors it stores to. */
  lemma ExecFrame<C, V>(M: Machine<C, V>, s: Stmt, env: Env, mem: Mem<C>, t: Name)
    requires t !in StmtStores(s)
    ensures Get(M, Exec(M, s, env, mem), t) == Get(M, mem, t)
  {
    ExecIsRun(M, s, env, mem);
    TraceTouches(M.tileSize, s, env);
    RunFrame(M, Trace(M.tileSize, s, env), t, mem);
  }

  /** What a statement does to a set of tensors depends only on those and on what it loads. */
  lemma ExecAgree<C, V>(M: Machine<C, V>, s: Stmt, env: Env, S: iset<Name>, m1: Mem<C>, m2: Mem<C>)
    requires Agree(M, S, m1, m2) && forall t :: t in StmtLoads(s) ==> t in S
    ensures Agree(M, S, Exec(M, s, env, m1), Exec(M, s, env, m2))
  {
    ExecIsRun(M, s, env, m1);
    ExecIsRun(M, s, env, m2);
    TraceTouches(M.tileSize, s, env);
    RunAgree(M, Trace(M.tileSize, s, env), S, m1, m2);
  }

  // ---------------------------------------------------------------------------------------------
  // The rounds of a loop

  /** Values a loop variable takes. */
  predicate Visits(v: int, step: pos, lo: int, hi: int) { lo <= v < hi && (v - lo) % step == 0 }

  lemma ShiftedMultiple(v: int, step: pos)
    ensures (v - step) % step == v % step
  {
    var q, r := v / step, v % step;
    assert v - step == (q - 1) * step + r;
    RemainderUnique(q - 1, r, step);
  }

  lemma RemainderUnique(q: int, r: int, step: pos)
    requires 0 <= r < step
    ensures (q * step + r) % step == r
  {
    var z := q * step + r;
    var width: int := step;
    var d := z / step - q;
    assert z == (z / step) * step + z % step;
    assert d * width == r - z % step;
    assert d >= 1 ==> d * width >= width;
    assert d <= -1 ==> d * width <= -width;
  }

  lemma NextVisited(v: int, step: pos, lo: int, hi: int)
    requires Visits(v, step, lo, hi) && v != lo
    ensures Visits(v, step, lo + step, hi)
  {
    ShiftedMultiple(v - lo, step);
    assert v - lo == ((v - lo) / step) * step;
    assert v - lo > 0;
    var q, width: int := (v - lo) / step, step;
    assert q <= 0 ==> q * width <= 0;
    assert q >= 1 ==> q * width >= width;
  }

  lemma LaterVisited(v: int, step: pos, lo: int, hi: int)
    requires Visits(v, step, lo + step, hi)
    ensures Visits(v, step, lo, hi)
  {
    ShiftedMultiple(v - lo, step);
  }

  /** Nothing runs before the first round, and later rounds come after it. */
  lemma RoundsBefore<C, V>(M: Machine<C, V>, b: Stmt, x: Name, step: pos, lo: int, v: int, env: Env, mem: Mem<C>)
    ensures v <= lo ==> Iterate(M, b, x, step, lo, v, env, mem) == mem
    ensures lo < v ==>
      Iterate(M, b, x, step, lo, v, env, mem) ==
      Iterate(M, b, x, step, lo + step, v, env, Exec(M, b, Bind(env, x, lo, step), mem))
  {
  }

  /** A program is a list of calls, run in order. */
  function RunCalls<C, V>(M: Machine<C, V>, calls: seq<Call>, mem: Mem<C>): Mem<C> {
    if calls == [] then mem else RunCalls(M, calls[1..], Exec(M, calls[0].root, map[], mem))
  }

  lemma {:induction false} RunCallsAppend<C, V>(M: Machine<C, V>, x: seq<Call>, y: seq<Call>, mem: Mem<C>)
    ensures RunCalls(M, x + y, mem) == RunCalls(M, y, RunCalls(M, x, mem))
  {
    if x == [] {
      assert x + y == y;
    } else {
      assert (x + y)[1..] == x[1..] + y;
      RunCallsAppend(M, x[1..], y, Exec(M, x[0].root, map[], mem));
    }
  }

  lemma RunCallsAt<C, V>(M: Machine<C, V>, calls: seq<Call>, i: nat, mem: Mem<C>)
    requires i < |calls|
    ensures RunCalls(M, calls, mem) ==
      RunCalls(M, calls[i + 1..], Exec(M, calls[i].root, map[], RunCalls(M, calls[..i], mem)))
  {
    var rest := [calls[i]] + calls[i + 1..];
    assert calls == calls[..i] + rest && rest[1..] == calls[i + 1..];
    RunCallsAppend(M, calls[..i], rest, mem);
  }
}
