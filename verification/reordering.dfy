/** When stores, statements and whole calls may change places.

    Two executed stores commute when wherever one writes what the other touches, their regions are
    kept apart by some coordinate; two statements commute when they meet Bernstein's conditions by
    name.  Main results: SwapBlocks and SwapStatements, and ReorderPreserves, by which any
    rearrangement of steps whose inverted pairs all commute gives the same final state. */
module Reordering {
  import opened Ast
  import opened Machines

  // ---------------------------------------------------------------------------------------------
  // Regions and the accesses of an expression

  predicate ApartExtents(a: Extent, b: Extent) {
    match (a, b)
    case (Span(l, n), Span(k, m)) => l + n <= k || k + m <= l
    case (Span(l, n), Point(p)) => p < l || l + n <= p
    case (Point(p), Span(l, n)) => p < l || l + n <= p
    case (Point(p), Point(q)) => p != q
    case _ => false
  }

  /** Some coordinate keeps the two regions apart. */
  predicate Apart(r: Region, q: Region) {
    exists d :: 0 <= d < |r| && d < |q| && ApartExtents(r[d], q[d])
  }

  /** The tensor/index pairs an expression loads. */
  function LoadAccesses(e: Expr): set<(Name, Index)> {
    match e
    case Load(t, ix) => {(t, ix)}
    case Const(_) => {}
    case Arange(_) => {}
    case Op(_, args) => set a, n | a in args && n in LoadAccesses(a) :: n
  }

  /** Memories in which reads and writes of regions that are kept apart do not meet. */
  ghost predicate KeepsRegionsApart<C(!new), V(!new)>(M: Machine<C, V>) {
    && (forall c: C, r: Region, q: Region, v: V :: Apart(r, q) ==> M.read(M.write(c, r, v), q) == M.read(c, q))
    && (forall c: C, r: Region, q: Region, v: V, w: V :: Apart(r, q) ==>
          M.write(M.write(c, r, v), q, w) == M.write(M.write(c, q, w), r, v))
  }

  predicate LoadsApart(e: Expr, env: Env, b: Act) {
    forall p :: p in LoadAccesses(e) && p.0 == b.tensor ==> Apart(b.Where(), ResolveAll(p.1, env))
  }

  /** Two executed stores that may change places: wherever one writes what the other touches, the
      regions are apart. */
  predicate Independent(a: Act, b: Act) {
    && LoadsApart(a.value, a.env, b)
    && LoadsApart(b.value, b.env, a)
    && (a.tensor == b.tensor ==> Apart(a.Where(), b.Where()))
  }

  /** Independence that needs no look at regions: no tensor is shared except for reading. */
  predicate NoSharedWrite(a: Act, b: Act) {
    a.tensor !in Loads(b.value) && b.tensor !in Loads(a.value) && a.tensor != b.tensor
  }

  lemma {:induction false} AccessesAreLoads(e: Expr)
    ensures forall p :: p in LoadAccesses(e) ==> p.0 in Loads(e)
  {
    if e.Op? {
      forall a | a in e.args { AccessesAreLoads(a); }
    }
  }

  lemma {:induction false} EvalApart<C(!new), V(!new)>(M: Machine<C, V>, e: Expr, env: Env, b: Act, mem: Mem<C>)
    requires LoadsApart(e, env, b)
    requires KeepsRegionsApart(M) || b.tensor !in Loads(e)
    ensures Eval(M, e, env, Step(M, b, mem)) == Eval(M, e, env, mem)
  {
    match e
    case Load(t, ix) =>
      if t == b.tensor {
        assert (t, ix) in LoadAccesses(e);
      }
    case Const(_) =>
    case Arange(_) =>
    case Op(op, args) =>
      forall k | 0 <= k < |args|
        ensures Eval(M, args[k], env, Step(M, b, mem)) == Eval(M, args[k], env, mem)
      {
        assert args[k] in args;
        forall p | p in LoadAccesses(args[k]) ensures p in LoadAccesses(e) { }
        EvalApart(M, args[k], env, b, mem);
      }
      assert EvalAll(M, args, env, Step(M, b, mem)) == EvalAll(M, args, env, mem);
  }

  lemma SwapActs<C(!new), V(!new)>(M: Machine<C, V>, a: Act, b: Act, mem: Mem<C>)
    requires Independent(a, b) && (KeepsRegionsApart(M) || NoSharedWrite(a, b))
    ensures Step(M, b, Step(M, a, mem)) == Step(M, a, Step(M, b, mem))
  {
    EvalApart(M, a.value, a.env, b, mem);
    EvalApart(M, b.value, b.env, a, mem);
    if a.tensor != b.tensor {
      assert Step(M, b, Step(M, a, mem)) == Step(M, a, Step(M, b, mem));
    }
  }

  ghost predicate AllIndependent<C(!new), V(!new)>(M: Machine<C, V>, x: seq<Act>, y: seq<Act>) {
    forall a, b :: a in x && b in y ==> Independent(a, b) && (KeepsRegionsApart(M) || NoSharedWrite(a, b))
  }

  lemma {:induction false} SwapActBlock<C(!new), V(!new)>(M: Machine<C, V>, a: Act, y: seq<Act>, mem: Mem<C>)
    requires AllIndependent(M, [a], y)
    ensures Run(M, y, Step(M, a, mem)) == Step(M, a, Run(M, y, mem))
  {
    if y != [] {
      assert a in [a] && y[0] in y;
      SwapActs(M, a, y[0], mem);
      SwapActBlock(M, a, y[1..], Step(M, y[0], mem));
    }
  }

  /** Blocks of pairwise independent stores may change places. */
  lemma {:induction false} SwapBlocks<C(!new), V(!new)>(M: Machine<C, V>, x: seq<Act>, y: seq<Act>, mem: Mem<C>)
    requires AllIndependent(M, x, y)
    ensures Run(M, y, Run(M, x, mem)) == Run(M, x, Run(M, y, mem))
  {
    if x != [] {
      SwapBlocks(M, x[1..], y, Step(M, x[0], mem));
      assert AllIndependent(M, [x[0]], y) by { assert x[0] in x; }
      SwapActBlock(M, x[0], y, mem);
    }
  }

  /** Bernstein's conditions on names. */
  predicate NoConflict(loads1: set<Name>, stores1: set<Name>, loads2: set<Name>, stores2: set<Name>) {
    stores1 !! loads2 && stores2 !! loads1 && stores1 !! stores2
  }

  /** Statements that meet Bernstein's conditions commute, whatever their loops and the machine. */
  lemma SwapStatements<C(!new), V(!new)>(M: Machine<C, V>, s: Stmt, t: Stmt, env: Env, mem: Mem<C>)
    requires NoConflict(StmtLoads(s), StmtStores(s), StmtLoads(t), StmtStores(t))
    ensures Exec(M, t, env, Exec(M, s, env, mem)) == Exec(M, s, env, Exec(M, t, env, mem))
  {
    var x, y := Trace(M.tileSize, s, env), Trace(M.tileSize, t, env);
    TraceTouches(M.tileSize, s, env);
    TraceTouches(M.tileSize, t, env);
    forall a, b | a in x && b in y ensures Independent(a, b) && NoSharedWrite(a, b) {
      AccessesAreLoads(a.value);
      AccessesAreLoads(b.value);
    }
    SwapBlocks(M, x, y, mem);
    ExecIsRun(M, s, env, mem);
    ExecIsRun(M, t, env, mem);
    ExecIsRun(M, t, env, Exec(M, s, env, mem));
    ExecIsRun(M, s, env, Exec(M, t, env, mem));
  }

  // ---------------------------------------------------------------------------------------------
  // Executed stores that are the same on every machine

  /** An expression with its loop variables filled in. */
  datatype Resolved = RLoad(tensor: Name, at: Region) | RConst(text: string) | RRange(lo: int, len: int) | ROp(op: Oper,
    args: seq<Resolved>)

  function ResolveExpr(e: Expr, env: Env): Resolved
    decreases e, 1
  {
    match e
    case Load(t, ix) => RLoad(t, ResolveAll(ix, env))
    case Const(c) => RConst(c)
    case Arange(x) => RRange(Lookup(env, x).value, Lookup(env, x).step)
    case Op(op, args) => ROp(op, ResolveExprs(args, env))
  }

  function ResolveExprs(args: seq<Expr>, env: Env): (r: seq<Resolved>)
    ensures |r| == |args| && forall k :: 0 <= k < |args| ==> r[k] == ResolveExpr(args[k], env)
    decreases args, 0
  {
    seq(|args|, k requires 0 <= k < |args| => ResolveExpr(args[k], env))
  }

  predicate SameAct(a: Act, b: Act) {
    a.tensor == b.tensor && a.Where() == b.Where() && ResolveExpr(a.value, a.env) == ResolveExpr(b.value, b.env)
  }

  lemma {:induction false} SameEval<C, V>(M: Machine<C, V>, e: Expr, env: Env, f: Expr, env': Env, mem: Mem<C>)
    requires ResolveExpr(e, env) == ResolveExpr(f, env')
    ensures Eval(M, e, env, mem) == Eval(M, f, env', mem)
  {
    if e.Op? {
      forall k | 0 <= k < |e.args| ensures Eval(M, e.args[k], env, mem) == Eval(M, f.args[k], env', mem) {
        assert ResolveExprs(e.args, env)[k] == ResolveExprs(f.args, env')[k];
        SameEval(M, e.args[k], env, f.args[k], env', mem);
      }
      assert EvalAll(M, e.args, env, mem) == EvalAll(M, f.args, env', mem);
    }
  }

  lemma SameStep<C, V>(M: Machine<C, V>, a: Act, b: Act, mem: Mem<C>)
    requires SameAct(a, b)
    ensures Step(M, a, mem) == Step(M, b, mem)
  {
    SameEval(M, a.value, a.env, b.value, b.env, mem);
  }

  predicate SameActs(xs: seq<Act>, ys: seq<Act>) {
    |xs| == |ys| && forall k :: 0 <= k < |xs| ==> SameAct(xs[k], ys[k])
  }

  lemma {:induction false} SameRuns<C, V>(M: Machine<C, V>, xs: seq<Act>, ys: seq<Act>, mem: Mem<C>)
    requires SameActs(xs, ys)
    ensures Run(M, xs, mem) == Run(M, ys, mem)
  {
    if xs != [] {
      SameStep(M, xs[0], ys[0], mem);
      SameRuns(M, xs[1..], ys[1..], Step(M, xs[0], mem));
    }
  }

  // ---------------------------------------------------------------------------------------------
  // Reordering a numbered list of steps

  ghost function Fold<S>(f: (nat, S) -> S, xs: seq<nat>, s: S): S {
    if xs == [] then s else Fold(f, xs[1..], f(xs[0], s))
  }

  ghost predicate Commute<S(!new)>(f: (nat, S) -> S, i: nat, j: nat) {
    forall s :: f(i, f(j, s)) == f(j, f(i, s))
  }

  predicate Increasing(xs: seq<nat>) {
    forall a, b :: 0 <= a < b < |xs| ==> xs[a] < xs[b]
  }

  predicate Distinct<T(==)>(xs: seq<T>) {
    forall a, b :: 0 <= a < b < |xs| ==> xs[a] != xs[b]
  }

  /** Every pair whose order `ys` inverts commutes. */
  ghost predicate InversionsCommute<S(!new)>(f: (nat, S) -> S, ys: seq<nat>) {
    forall a, b :: 0 <= a < b < |ys| && ys[b] < ys[a] ==> Commute(f, ys[b], ys[a])
  }

  lemma {:induction false} FoldAppend<S>(f: (nat, S) -> S, x: seq<nat>, y: seq<nat>, s: S)
    ensures Fold(f, x + y, s) == Fold(f, y, Fold(f, x, s))
  {
    if x == [] {
      assert x + y == y;
    } else {
      assert (x + y)[1..] == x[1..] + y;
      FoldAppend(f, x[1..], y, f(x[0], s));
    }
  }

  lemma {:induction false} PullToFront<S(!new)>(f: (nat, S) -> S, xs: seq<nat>, y: nat, s: S)
    requires forall x :: x in xs ==> Commute(f, x, y)
    ensures f(y, Fold(f, xs, s)) == Fold(f, xs, f(y, s))
  {
    if xs != [] {
      assert Commute(f, xs[0], y);
      assert f(xs[0], f(y, s)) == f(y, f(xs[0], s));
      PullToFront(f, xs[1..], y, f(xs[0], s));
    }
  }

  /** Taking the first step of a reordering out of both orders leaves the same steps. */
  lemma TakeOut(xs: seq<nat>, ys: seq<nat>, k: nat)
    requires Increasing(xs) && Distinct(ys) && ys != [] && k < |xs| && xs[k] == ys[0]
    requires forall x :: x in xs <==> x in ys
    ensures Increasing(xs[..k] + xs[k + 1..]) && Distinct(ys[1..])
    ensures forall x :: x in xs[..k] + xs[k + 1..] <==> x in ys[1..]
  {
    var y, rest := ys[0], xs[..k] + xs[k + 1..];
    forall x ensures x in rest <==> x in xs && x != y {
      if x in xs && x != y {
        var a :| 0 <= a < |xs| && xs[a] == x;
        assert if a < k then rest[a] == x else rest[a - 1] == x;
      }
    }
    assert ys == [y] + ys[1..];
  }

  lemma TakenCommutes<S(!new)>(f: (nat, S) -> S, xs: seq<nat>, ys: seq<nat>, k: nat)
    requires Increasing(xs) && ys != [] && k < |xs| && xs[k] == ys[0]
    requires forall x :: x in xs ==> x in ys
    requires InversionsCommute(f, ys)
    ensures forall x :: x in xs[..k] ==> Commute(f, x, ys[0])
  {
    forall a | 0 <= a < k ensures Commute(f, xs[a], ys[0]) {
      assert xs[a] in xs;
      var b :| 0 <= b < |ys| && ys[b] == xs[a];
      assert ys[b] < ys[0];
    }
  }

  lemma FoldFromFront<S(!new)>(f: (nat, S) -> S, front: seq<nat>, y: nat, tail: seq<nat>, s: S)
    requires forall x :: x in front ==> Commute(f, x, y)
    ensures Fold(f, front + ([y] + tail), s) == Fold(f, front + tail, f(y, s))
  {
    FoldAppend(f, front, tail, f(y, s));
    PullToFront(f, front, y, s);
    FoldAppend(f, front, [y] + tail, s);
    assert ([y] + tail)[1..] == tail;
  }

  /** A reordering whose inverted pairs all commute has the same effect as the original order. */
  lemma {:induction false} ReorderPreserves<S(!new)>(f: (nat, S) -> S, xs: seq<nat>, ys: seq<nat>, s: S)
    requires Increasing(xs) && Distinct(ys)
    requires forall x :: x in xs <==> x in ys
    requires InversionsCommute(f, ys)
    ensures Fold(f, ys, s) == Fold(f, xs, s)
    decreases |ys|
  {
    assert xs != [] ==> xs[0] in xs;
    if ys != [] {
      assert ys[0] in xs;
      var k :| 0 <= k < |xs| && xs[k] == ys[0];
      TakenCommutes(f, xs, ys, k);
      assert xs == xs[..k] + ([ys[0]] + xs[k + 1..]);
      FoldFromFront(f, xs[..k], ys[0], xs[k + 1..], s);
      TakeOut(xs, ys, k);
      assert InversionsCommute(f, ys[1..]);
      ReorderPreserves(f, xs[..k] + xs[k + 1..], ys[1..], f(ys[0], s));
    }
  }
}
