/** Loop fission and same-range loop fusion (optimizer/src/rules.rs, applier.rs, dependency.rs). */
module LoopRules {
  import opened Ast
  import opened Text
  import opened Machines
  import opened Reordering
  import opened LoopNames

  // ---------------------------------------------------------------------------------------------
  // Access sets

  type Access = (Name, Index)

  function ReadSet(s: Stmt): set<Access> {
    match s
    case Store(_, v, _) => LoadAccesses(v)
    case Loop(_, _, _, _, b) => ReadSet(b)
    case Seq(l, r) => ReadSet(l) + ReadSet(r)
    case Block(ss) => set c, p | c in ss && p in ReadSet(c) :: p
  }

  function WriteSet(s: Stmt): set<Access> {
    match s
    case Store(t, _, ix) => {(t, ix)}
    case Loop(_, _, _, _, b) => WriteSet(b)
    case Seq(l, r) => WriteSet(l) + WriteSet(r)
    case Block(ss) => set c, p | c in ss && p in WriteSet(c) :: p
  }

  /** Two comma-joined names share a component. */
  predicate BasesOverlap(a: Name, b: Name) {
    exists n :: n in SplitNames(a) && n in SplitNames(b)
  }

  /** `index_expressions_equal` on one coordinate: different kinds count as equal. */
  predicate AtomsMatch(a: Atom, b: Atom) {
    match (a, b)
    case (Tile(x), Tile(y)) => x == y
    case (Elem(x), Elem(y)) => x == y
    case _ => true
  }

  predicate IndicesMatch(ix: Index, jx: Index) {
    |ix| == |jx| && forall d :: 0 <= d < |ix| ==> AtomsMatch(ix[d], jx[d])
  }

  predicate DependsOn(ix: Index, x: Name) {
    exists d :: 0 <= d < |ix| && (ix[d] == Tile(x) || ix[d] == Elem(x))
  }

  /** `no_raw_dependency`. */
  predicate NoRawDependency(b1: Stmt, b2: Stmt, x: Name) {
    forall r, w :: r in ReadSet(b2) && w in WriteSet(b1) && BasesOverlap(r.0, w.0) ==>
      IndicesMatch(r.1, w.1) && (DependsOn(w.1, x) || forall p :: p in ReadSet(b1) ==> !DependsOn(p.1, x))
  }

  /** `no_all_dependency`. */
  predicate NoAllDependency(a: Stmt, b: Stmt) {
    && (forall r, w :: r in ReadSet(b) && w in WriteSet(a) ==> !BasesOverlap(r.0, w.0))
    && (forall r, w :: r in ReadSet(a) && w in WriteSet(b) ==> !BasesOverlap(r.0, w.0))
    && (forall v, w :: v in WriteSet(a) && w in WriteSet(b) ==> !BasesOverlap(v.0, w.0))
  }

  /** A coordinate that moves with the loop: its tile, an offset of it, or its element. */
  predicate LoopCoordinate(a: Atom, x: Name) {
    (a.Tile? || a.TileOffset? || a.Elem?) && Clean(a.name) == Clean(x)
  }

  predicate SameKind(a: Atom, b: Atom) {
    match (a, b)
    case (Tile(_), Tile(_)) => true
    case (TileOffset(_, k), TileOffset(_, m)) => k == m
    case (Elem(_), Elem(_)) => true
    case _ => false
  }

  /** Both indices have the same loop coordinate in one dimension. */
  predicate Carried(ix: Index, jx: Index, x: Name) {
    exists d ::
      0 <= d < |ix| && d < |jx| && LoopCoordinate(ix[d], x) && LoopCoordinate(jx[d], x) && SameKind(ix[d], jx[d])
  }

  /** Every two accesses of the bodies that can meet, one of them a write, are carried by the loop
      variable.  This is the common index with the loop tile that the RAW check looks for, asked of
      all hazards; tensors are compared as that check does, by the components of their names. */
  ghost predicate HazardsCarried(b1: Stmt, b2: Stmt, x: Name) {
    && (forall w, p :: w in WriteSet(b1) && p in ReadSet(b2) + WriteSet(b2) && BasesOverlap(w.0, p.0) ==>
      Carried(w.1, p.1, x))
    && (forall r, w :: r in ReadSet(b1) && w in WriteSet(b2) && BasesOverlap(r.0, w.0) ==> Carried(r.1, w.1, x))
  }

  lemma OverlapsItself(t: Name)
    ensures BasesOverlap(t, t)
  {
    assert SplitNames(t)[0] in SplitNames(t);
  }

  /** An inner loop binds the variable again, under any spelling. */
  predicate Rebinds(s: Stmt, x: Name) { exists y :: y in LoopVars(s) && Clean(y) == Clean(x) }

  // ---------------------------------------------------------------------------------------------
  // What the stores of an iteration access

  /** The acts of a trace access only what the statement does, and see x as the loop set it. */
  ghost predicate Within(tr: seq<Act>, rs: set<Access>, ws: set<Access>, x: Name, b: Binding) {
    forall a :: a in tr ==> LoadAccesses(a.value) <= rs && (a.tensor, a.index) in ws && Lookup(a.env, x) == b
  }

  lemma {:induction false} TraceWithin(size: string -> pos, s: Stmt, env: Env, x: Name)
    requires !Rebinds(s, x)
    ensures Within(Trace(size, s, env), ReadSet(s), WriteSet(s), x, Lookup(env, x))
    decreases s, 1, 0
  {
    match s
    case Store(_, _, _) =>
    case Loop(lo, hi, tile, y, b) =>
      LoopWithin(size, b, y, size(tile), BoundValue(lo, env), BoundValue(hi, env), env, x);
    case Seq(l, r) =>
      TraceWithin(size, l, env, x);
      TraceWithin(size, r, env, x);
    case Block(ss) => AllWithin(size, ss, env, x, ReadSet(s), WriteSet(s));
  }

  lemma {:induction false} LoopWithin(size: string -> pos, b: Stmt, y: Name, step: pos, lo: int, hi: int, env: Env,
      x: Name)
    requires !Rebinds(b, x) && Clean(x) != Clean(y)
    ensures Within(LoopTrace(size, b, y, step, lo, hi, env), ReadSet(b), WriteSet(b), x, Lookup(env, x))
    decreases b, 2, if lo < hi then hi - lo else 0
  {
    if lo < hi {
      LookupBind(env, y, lo, step, x);
      TraceWithin(size, b, Bind(env, y, lo, step), x);
      LoopWithin(size, b, y, step, lo + step, hi, env, x);
    }
  }

  lemma {:induction false} AllWithin(size: string -> pos, ss: seq<Stmt>, env: Env, x: Name, rs: set<Access>,
      ws: set<Access>)
    requires forall c :: c in ss ==> !Rebinds(c, x) && ReadSet(c) <= rs && WriteSet(c) <= ws
    ensures Within(TraceAll(size, ss, env), rs, ws, x, Lookup(env, x))
    decreases ss, 0, 0
  {
    if ss != [] {
      TraceWithin(size, ss[0], env, x);
      AllWithin(size, ss[1..], env, x, rs, ws);
    }
  }

  /** Consecutive iterations have different tile numbers. */
  lemma {:induction false} TileNumbers(v: int, step: pos, n: nat)
    ensures (v + n * step) / step == v / step + n
  {
    var q, r := v / step, v % step;
    assert v + n * step == (q + n) * step + r;
    QuotientUnique(q + n, r, step);
  }

  lemma QuotientUnique(q: int, r: int, step: pos)
    requires 0 <= r < step
    ensures (q * step + r) / step == q
  {
    var z := q * step + r;
    var d := z / step - q;
    assert z == (z / step) * step + z % step;
    assert d * step == r - z % step;
    var width: int := step;
    assert d >= 1 ==> d * width >= width;
    assert d <= -1 ==> d * width <= -width;
  }

  /** The loop's own coordinates in two different iterations. */
  lemma LoopCoordinatesApart(a: Atom, b: Atom, x: Name, envA: Env, envB: Env, v: int, n: nat, step: pos)
    requires LoopCoordinate(a, x) && LoopCoordinate(b, x) && SameKind(a, b) && n >= 1
    requires Lookup(envA, x) == Binding(v + n * step, step) && Lookup(envB, x) == Binding(v, step)
    ensures ApartExtents(Resolve(a, envA), Resolve(b, envB)) && ApartExtents(Resolve(b, envB), Resolve(a, envA))
  {
    assert n * step >= step;
    TileNumbers(v, step, n);
    assert Lookup(envA, a.name) == Lookup(envA, x) && Lookup(envB, b.name) == Lookup(envB, x);
  }

  /** Carried accesses in different iterations are apart. */
  lemma AccessesApart(ix: Index, jx: Index, x: Name, envA: Env, envB: Env, v: int, n: nat, step: pos)
    requires Carried(ix, jx, x) && n >= 1
    requires Lookup(envA, x) == Binding(v + n * step, step) && Lookup(envB, x) == Binding(v, step)
    ensures Apart(ResolveAll(ix, envA), ResolveAll(jx, envB)) && Apart(ResolveAll(jx, envB), ResolveAll(ix, envA))
  {
    var d :| 0 <= d < |ix| && d < |jx| && LoopCoordinate(ix[d], x) && LoopCoordinate(jx[d], x) &&
      SameKind(ix[d], jx[d]);
    LoopCoordinatesApart(ix[d], jx[d], x, envA, envB, v, n, step);
    assert ApartExtents(ResolveAll(ix, envA)[d], ResolveAll(jx, envB)[d]);
    assert ApartExtents(ResolveAll(jx, envB)[d], ResolveAll(ix, envA)[d]);
  }

  /** Stores of the two bodies in different iterations are independent. */
  lemma IterationsIndependent(b1: Stmt, b2: Stmt, x: Name, a: Act, b: Act, v: int, n: nat, step: pos)
    requires HazardsCarried(b1, b2, x) && n >= 1
    requires Within([a], ReadSet(b1), WriteSet(b1), x, Binding(v + n * step, step))
    requires Within([b], ReadSet(b2), WriteSet(b2), x, Binding(v, step))
    ensures Independent(a, b)
  {
    assert a in [a] && b in [b];
    var w1, w2 := (a.tensor, a.index), (b.tensor, b.index);
    assert w1 in WriteSet(b1) && w2 in WriteSet(b2);
    forall p | p in LoadAccesses(a.value) && p.0 == b.tensor ensures Apart(b.Where(), ResolveAll(p.1, a.env)) {
      OverlapsItself(p.0);
      assert p in ReadSet(b1) && BasesOverlap(p.0, w2.0);
      AccessesApart(p.1, w2.1, x, a.env, b.env, v, n, step);
    }
    forall p | p in LoadAccesses(b.value) && p.0 == a.tensor ensures Apart(a.Where(), ResolveAll(p.1, b.env)) {
      OverlapsItself(p.0);
      assert p in ReadSet(b2) + WriteSet(b2) && BasesOverlap(w1.0, p.0);
      AccessesApart(w1.1, p.1, x, a.env, b.env, v, n, step);
    }
    if a.tensor == b.tensor {
      OverlapsItself(a.tensor);
      assert w2 in ReadSet(b2) + WriteSet(b2) && BasesOverlap(w1.0, w2.0);
      AccessesApart(w1.1, w2.1, x, a.env, b.env, v, n, step);
    }
  }

  /** One iteration of the second body is independent of all later iterations of the first. */
  lemma {:induction false} LaterIterationsIndependent<C(!new), V(!new)>(M: Machine<C, V>, b1: Stmt, b2: Stmt, x: Name,
      step: pos, v: int, n: nat, hi: int, env: Env)
    requires KeepsRegionsApart(M) && HazardsCarried(b1, b2, x) && !Rebinds(b1, x) && !Rebinds(b2, x) && n >= 1
    ensures AllIndependent(M, Trace(M.tileSize, b2, Bind(env, x, v, step)),
      LoopTrace(M.tileSize, b1, x, step, v + n * step, hi, env))
    decreases hi - (v + n * step)
  {
    var w := v + n * step;
    if w < hi {
      var envB, envA := Bind(env, x, v, step), Bind(env, x, w, step);
      assert (n + 1) * step == n * step + step;
      LaterIterationsIndependent(M, b1, b2, x, step, v, n + 1, hi, env);
      TwoRoundsIndependent(M.tileSize, b1, b2, x, step, v, n, env);
    }
  }

  lemma TwoRoundsIndependent(size: string -> pos, b1: Stmt, b2: Stmt, x: Name, step: pos, v: int, n: nat, env: Env)
    requires HazardsCarried(b1, b2, x) && !Rebinds(b1, x) && !Rebinds(b2, x) && n >= 1
    ensures forall b, a ::
      b in Trace(size, b2, Bind(env, x, v, step)) && a in Trace(size, b1, Bind(env, x, v + n * step, step)) ==>
      Independent(b, a)
  {
    var envB, envA := Bind(env, x, v, step), Bind(env, x, v + n * step, step);
    TraceWithin(size, b2, envB, x);
    TraceWithin(size, b1, envA, x);
    forall b, a | b in Trace(size, b2, envB) && a in Trace(size, b1, envA) ensures Independent(b, a) {
      IterationsIndependent(b1, b2, x, a, b, v, n, step);
      ApartSymmetric(a, b);
    }
  }

  lemma ApartSymmetric(a: Act, b: Act)
    requires Independent(a, b)
    ensures Independent(b, a)
  {
    if a.tensor == b.tensor {
      var r, q := a.Where(), b.Where();
      var d :| 0 <= d < |r| && d < |q| && ApartExtents(r[d], q[d]);
      assert ApartExtents(q[d], r[d]);
    }
  }

  ghost predicate BlocksCommute<C(!new), V(!new)>(M: Machine<C, V>, x: seq<Act>, y: seq<Act>) {
    forall mem: Mem<C> :: Run(M, y, Run(M, x, mem)) == Run(M, x, Run(M, y, mem))
  }

  /** Every round of the second body commutes with the later rounds of the first. */
  ghost predicate RoundsCommute<C(!new), V(!new)>(M: Machine<C, V>, b1: Stmt, b2: Stmt, x: Name, step: pos, lo: int,
      hi: int, env: Env)
    decreases if lo < hi then hi - lo else 0
  {
    lo < hi ==>
      && BlocksCommute(M, Trace(M.tileSize, b2, Bind(env, x, lo, step)),
        LoopTrace(M.tileSize, b1, x, step, lo + step, hi, env))
      && RoundsCommute(M, b1, b2, x, step, lo + step, hi, env)
  }

  lemma {:induction false} CarriedRoundsCommute<C(!new), V(!new)>(M: Machine<C, V>, b1: Stmt, b2: Stmt, x: Name,
      step: pos, lo: int, hi: int, env: Env)
    requires KeepsRegionsApart(M) && HazardsCarried(b1, b2, x) && !Rebinds(b1, x) && !Rebinds(b2, x)
    ensures RoundsCommute(M, b1, b2, x, step, lo, hi, env)
    decreases if lo < hi then hi - lo else 0
  {
    if lo < hi {
      CarriedRoundsCommute(M, b1, b2, x, step, lo + step, hi, env);
      CarriedRoundCommutes(M, b1, b2, x, step, lo, hi, env);
    }
  }

  lemma CarriedRoundCommutes<C(!new), V(!new)>(M: Machine<C, V>, b1: Stmt, b2: Stmt, x: Name, step: pos, lo: int,
      hi: int, env: Env)
    requires KeepsRegionsApart(M) && HazardsCarried(b1, b2, x) && !Rebinds(b1, x) && !Rebinds(b2, x)
    ensures BlocksCommute(M, Trace(M.tileSize, b2, Bind(env, x, lo, step)),
      LoopTrace(M.tileSize, b1, x, step, lo + step, hi, env))
  {
    assert lo + 1 * step == lo + step;
    LaterIterationsIndependent(M, b1, b2, x, step, lo, 1, hi, env);
    IndependentBlocksCommute(M, Trace(M.tileSize, b2, Bind(env, x, lo, step)),
      LoopTrace(M.tileSize, b1, x, step, lo + step, hi, env));
  }

  lemma IndependentBlocksCommute<C(!new), V(!new)>(M: Machine<C, V>, x: seq<Act>, y: seq<Act>)
    requires AllIndependent(M, x, y)
    ensures BlocksCommute(M, x, y)
  {
    forall mem: Mem<C> ensures Run(M, y, Run(M, x, mem)) == Run(M, x, Run(M, y, mem)) { SwapBlocks(M, x, y, mem); }
  }

  /** One round of the loop over both bodies, with the second body moved past the later rounds of the first. */
  lemma RoundSplit<C(!new), V(!new)>(M: Machine<C, V>, A: seq<Act>, B: seq<Act>, rest: seq<Act>, restA: seq<Act>,
      restB: seq<Act>, mem: Mem<C>)
    requires BlocksCommute(M, B, restA)
    requires var after := Run(M, B, Run(M, A, mem)); Run(M, rest, after) == Run(M, restB, Run(M, restA, after))
    ensures Run(M, A + B + rest, mem) == Run(M, B + restB, Run(M, A + restA, mem))
  {
    var afterA := Run(M, A, mem);
    RunAppend(M, A + B, rest, mem);
    RunAppend(M, A, B, mem);
    RunAppend(M, A, restA, mem);
    RunAppend(M, B, restB, Run(M, restA, afterA));
  }

  /** The loop over both bodies runs as the two loops do. */
  lemma {:induction false} SplitLoopTrace<C(!new), V(!new)>(M: Machine<C, V>, b1: Stmt, b2: Stmt, x: Name, step: pos,
      lo: int, hi: int, env: Env, mem: Mem<C>)
    requires RoundsCommute(M, b1, b2, x, step, lo, hi, env)
    ensures Run(M, LoopTrace(M.tileSize, Seq(b1, b2), x, step, lo, hi, env), mem) ==
      Run(M, LoopTrace(M.tileSize, b2, x, step, lo, hi, env),
        Run(M, LoopTrace(M.tileSize, b1, x, step, lo, hi, env), mem))
    decreases if lo < hi then hi - lo else 0
  {
    if lo < hi {
      var env' := Bind(env, x, lo, step);
      var after := Run(M, Trace(M.tileSize, b2, env'), Run(M, Trace(M.tileSize, b1, env'), mem));
      FirstCommutes(M, b1, b2, x, step, lo, hi, env);
      SplitLoopTrace(M, b1, b2, x, step, lo + step, hi, env, after);
      SplitRound(M, b1, b2, x, step, lo, hi, env, mem, after);
    } else {
      NoRound(M, b1, x, step, lo, hi, env, mem);
      NoRound(M, b2, x, step, lo, hi, env, mem);
      NoRound(M, Seq(b1, b2), x, step, lo, hi, env, mem);
    }
  }

  lemma NoRound<C, V>(M: Machine<C, V>, b: Stmt, x: Name, step: pos, lo: int, hi: int, env: Env, mem: Mem<C>)
    requires lo >= hi
    ensures Run(M, LoopTrace(M.tileSize, b, x, step, lo, hi, env), mem) == mem
  {
  }

  lemma FirstCommutes<C(!new), V(!new)>(M: Machine<C, V>, b1: Stmt, b2: Stmt, x: Name, step: pos, lo: int, hi: int,
      env: Env)
    requires lo < hi && RoundsCommute(M, b1, b2, x, step, lo, hi, env)
    ensures BlocksCommute(M, Trace(M.tileSize, b2, Bind(env, x, lo, step)),
      LoopTrace(M.tileSize, b1, x, step, lo + step, hi, env))
    ensures RoundsCommute(M, b1, b2, x, step, lo + step, hi, env)
  {
  }

  lemma SplitRound<C(!new), V(!new)>(M: Machine<C, V>, b1: Stmt, b2: Stmt, x: Name, step: pos, lo: int, hi: int,
      env: Env, mem: Mem<C>, after: Mem<C>)
    requires lo < hi && BlocksCommute(M, Trace(M.tileSize, b2, Bind(env, x, lo, step)),
      LoopTrace(M.tileSize, b1, x, step, lo + step, hi, env))
    requires after == Run(M, Trace(M.tileSize, b2, Bind(env, x, lo, step)),
      Run(M, Trace(M.tileSize, b1, Bind(env, x, lo, step)), mem))
    requires Run(M, LoopTrace(M.tileSize, Seq(b1, b2), x, step, lo + step, hi, env), after) ==
      Run(M, LoopTrace(M.tileSize, b2, x, step, lo + step, hi, env),
        Run(M, LoopTrace(M.tileSize, b1, x, step, lo + step, hi, env), after))
    ensures Run(M, LoopTrace(M.tileSize, Seq(b1, b2), x, step, lo, hi, env), mem) ==
      Run(M, LoopTrace(M.tileSize, b2, x, step, lo, hi, env),
        Run(M, LoopTrace(M.tileSize, b1, x, step, lo, hi, env), mem))
  {
    var env' := Bind(env, x, lo, step);
    var A, B := Trace(M.tileSize, b1, env'), Trace(M.tileSize, b2, env');
    var restA, restB := LoopTrace(M.tileSize, b1, x, step, lo + step, hi, env),
      LoopTrace(M.tileSize, b2, x, step, lo + step, hi, env);
    RoundSplit(M, A, B, LoopTrace(M.tileSize, Seq(b1, b2), x, step, lo + step, hi, env), restA, restB, mem);
    FirstRound(M.tileSize, b1, x, step, lo, hi, env);
    FirstRound(M.tileSize, b2, x, step, lo, hi, env);
    FirstRound(M.tileSize, Seq(b1, b2), x, step, lo, hi, env);
  }

  lemma FirstRound(size: string -> pos, b: Stmt, x: Name, step: pos, lo: int, hi: int, env: Env)
    requires lo < hi
    ensures LoopTrace(size, b, x, step, lo, hi, env) ==
      Trace(size, b, Bind(env, x, lo, step)) + LoopTrace(size, b, x, step, lo + step, hi, env)
  {
  }

  // ---------------------------------------------------------------------------------------------
  // The rules

  /** `loop-fission`. */
  function Fission(s: Stmt): Option<Stmt> {
    match s
    case Loop(lo, hi, tile, x, Seq(b1, b2)) =>
      if lo == Num(0) && NoRawDependency(b1, b2, x) then Some(Seq(Loop(lo, hi, tile, x, b1), Loop(lo, hi, tile, x, b2)))
        else None
    case _ => None
  }

  /** `loop-fission-tail`. */
  function FissionTail(s: Stmt): Option<Stmt> {
    match s
    case Seq(loop, others) =>
      (match Fission(loop)
       case Some(Seq(l1, l2)) => Some(Seq(l1, Seq(l2, others)))
       case _ => None)
    case _ => None
  }

  predicate IsNum(tile: string) {
    tile != [] && forall c :: c in tile ==> '0' <= c <= '9'
  }

  /** The same-variable, same-range branch of `LoopFusion`: the fused loop keeps the first tile
      unless only the second is a number. */
  function FuseLoops(s: Stmt): Option<Stmt> {
    match s
    case Seq(Loop(lo1, hi1, tile1, x1, b1), Loop(lo2, hi2, tile2, x2, b2)) =>
      if lo1 == lo2 && x1 == x2 && hi1 == hi2 && NoRawDependency(b1, b2, x1) then
        var tile := if !IsNum(tile1) && IsNum(tile2) then tile2 else tile1;
        Some(Loop(lo1, hi1, tile, x1, Seq(b1, b2)))
      else None
    case _ => None
  }

  /** The same branch of `LoopFusionTail`. */
  function FuseLoopsTail(s: Stmt): Option<Stmt> {
    match s
    case Seq(first, Seq(second, others)) =>
      (match FuseLoops(Seq(first, second))
       case Some(fused) => Some(Seq(fused, others))
       case None => None)
    case _ => None
  }

  ghost predicate SafeBodies(b1: Stmt, b2: Stmt, x: Name) {
    HazardsCarried(b1, b2, x) && !Rebinds(b1, x) && !Rebinds(b2, x)
  }

  /** A loop over two bodies is the two loops one after the other, for every trip count. */
  lemma LoopOverSeq<C(!new), V(!new)>(M: Machine<C, V>, lo: Bound, hi: Bound, tile: string, x: Name, b1: Stmt, b2: Stmt,
      env: Env, mem: Mem<C>)
    requires KeepsRegionsApart(M) && SafeBodies(b1, b2, x)
    ensures Exec(M, Loop(lo, hi, tile, x, Seq(b1, b2)), env, mem) ==
      Exec(M, Seq(Loop(lo, hi, tile, x, b1), Loop(lo, hi, tile, x, b2)), env, mem)
  {
    var l1, l2 := Loop(lo, hi, tile, x, b1), Loop(lo, hi, tile, x, b2);
    ExecIsRun(M, Loop(lo, hi, tile, x, Seq(b1, b2)), env, mem);
    ExecIsRun(M, l1, env, mem);
    ExecIsRun(M, l2, env, Exec(M, l1, env, mem));
    CarriedRoundsCommute(M, b1, b2, x, M.tileSize(tile), BoundValue(lo, env), BoundValue(hi, env), env);
    SplitLoopTrace(M, b1, b2, x, M.tileSize(tile), BoundValue(lo, env), BoundValue(hi, env), env, mem);
  }

  /** Loop fission, alone or before other statements, preserves memory. */
  lemma FissionPreserves<C(!new), V(!new)>(M: Machine<C, V>, s: Stmt, env: Env, mem: Mem<C>)
    requires KeepsRegionsApart(M)
    ensures Fission(s).Some? && SafeBodies(s.body.left, s.body.right, s.loopVar) ==>
      Exec(M, Fission(s).value, env, mem) == Exec(M, s, env, mem)
    ensures FissionTail(s).Some? && SafeBodies(s.left.body.left, s.left.body.right, s.left.loopVar) ==>
      Exec(M, FissionTail(s).value, env, mem) == Exec(M, s, env, mem)
  {
    if Fission(s).Some? && SafeBodies(s.body.left, s.body.right, s.loopVar) {
      LoopOverSeq(M, s.start, s.end, s.tile, s.loopVar, s.body.left, s.body.right, env, mem);
    }
    if FissionTail(s).Some? && SafeBodies(s.left.body.left, s.left.body.right, s.left.loopVar) {
      LoopOverSeq(M, s.left.start, s.left.end, s.left.tile, s.left.loopVar, s.left.body.left, s.left.body.right, env,
        mem);
    }
  }

  /** With another tile the loop still runs the same stores. */
  predicate SameRounds(size: string -> pos, loop: Stmt, tile: string, env: Env)
    requires loop.Loop?
  {
    SameActs(Trace(size, loop, env), Trace(size, Loop(loop.start, loop.end, tile, loop.loopVar, loop.body), env))
  }

  /** The fused loop has one tile; each body runs as it did with its own. */
  predicate TilesAgree(size: string -> pos, l1: Stmt, l2: Stmt, env: Env)
    requires FuseLoops(Seq(l1, l2)).Some?
  {
    var tile := FuseLoops(Seq(l1, l2)).value.tile;
    SameRounds(size, l1, tile, env) && SameRounds(size, l2, tile, env)
  }

  /** So it is for tiles of one size, and for loops that do not run. */
  lemma EqualTilesAgree(size: string -> pos, l1: Stmt, l2: Stmt, env: Env)
    requires FuseLoops(Seq(l1, l2)).Some?
    requires size(l1.tile) == size(l2.tile) || BoundValue(l1.start, env) >= BoundValue(l1.end, env)
    ensures TilesAgree(size, l1, l2, env)
  {
  }

  /** Same-range loop fusion, alone or before other statements, preserves memory where the bodies run
      with the fused loop's tile as they did with their own. */
  lemma FusionPreserves<C(!new), V(!new)>(M: Machine<C, V>, s: Stmt, env: Env, mem: Mem<C>)
    requires KeepsRegionsApart(M)
    ensures (FuseLoops(s).Some? && TilesAgree(M.tileSize, s.left, s.right, env) &&
             SafeBodies(s.left.body, s.right.body, s.left.loopVar)) ==>
      Exec(M, FuseLoops(s).value, env, mem) == Exec(M, s, env, mem)
    ensures (FuseLoopsTail(s).Some? && TilesAgree(M.tileSize, s.left, s.right.left, env) &&
             SafeBodies(s.left.body, s.right.left.body, s.left.loopVar)) ==>
      Exec(M, FuseLoopsTail(s).value, env, mem) == Exec(M, s, env, mem)
  {
    if FuseLoops(s).Some? && TilesAgree(M.tileSize, s.left, s.right, env) &&
      SafeBodies(s.left.body, s.right.body, s.left.loopVar) {
      FusePair(M, s.left, s.right, env, mem);
    }
    if FuseLoopsTail(s).Some? && TilesAgree(M.tileSize, s.left, s.right.left, env) &&
      SafeBodies(s.left.body, s.right.left.body, s.left.loopVar) {
      FusePair(M, s.left, s.right.left, env, mem);
    }
  }

  lemma FusePair<C(!new), V(!new)>(M: Machine<C, V>, l1: Stmt, l2: Stmt, env: Env, mem: Mem<C>)
    requires KeepsRegionsApart(M) && FuseLoops(Seq(l1, l2)).Some?
    requires TilesAgree(M.tileSize, l1, l2, env) && SafeBodies(l1.body, l2.body, l1.loopVar)
    ensures Exec(M, FuseLoops(Seq(l1, l2)).value, env, mem) == Exec(M, l2, env, Exec(M, l1, env, mem))
  {
    var tile := FuseLoops(Seq(l1, l2)).value.tile;
    LoopOverSeq(M, l1.start, l1.end, tile, l1.loopVar, l1.body, l2.body, env, mem);
    OtherTile(M, l1, tile, env, mem);
    OtherTile(M, l2, tile, env, Exec(M, l1, env, mem));
  }

  lemma OtherTile<C, V>(M: Machine<C, V>, loop: Stmt, tile: string, env: Env, mem: Mem<C>)
    requires loop.Loop? && SameRounds(M.tileSize, loop, tile, env)
    ensures Exec(M, Loop(loop.start, loop.end, tile, loop.loopVar, loop.body), env, mem) == Exec(M, loop, env, mem)
  {
    var other := Loop(loop.start, loop.end, tile, loop.loopVar, loop.body);
    ExecIsRun(M, loop, env, mem);
    ExecIsRun(M, other, env, mem);
    SameRuns(M, Trace(M.tileSize, loop, env), Trace(M.tileSize, other, env), mem);
  }
}
