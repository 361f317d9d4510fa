/** What removing an inner loop does to the memory, on tensors of cells: an elementwise nest is unchanged
    when the loop covers the axis it walks over (RemovalKeepsMeaning). */
module InnerMeaning {
  import opened Ast
  import opened LoopNames
  import opened Machines
  import opened Reordering
  import opened Elements
  import opened Inlining
  import InnerLoops

  // ---------------------------------------------------------------------------------------------
  // The memory an elementwise nest leaves depends on the cells it hits

  /** A run of stores of one template to a tensor the template does not load. */
  ghost predicate FillsWith<S>(tr: seq<Act>, out: Name, t: Template, mem: Mem<Cells<S>>) {
    && WellFormed(t) && TLoads(t) != {} && out !in TLoads(t)
    && Shaped(TLoads(t), mem, CellsOf(mem, out).Keys)
    && forall a :: a in tr ==> a.tensor == out && a.value == Build(t, a.index)
  }

  /** Every cell that is hit gets the template's value, the others keep theirs. */
  lemma {:induction false} FilledCells<S(!new)>(A: Arithmetic<S>, tr: seq<Act>, out: Name, t: Template,
      mem: Mem<Cells<S>>, p: Coord)
    requires PointwiseArithmetic(A) && FillsWith(tr, out, t, mem) && p in CellsOf(mem, out)
    ensures var mem' := Run(A.Machine(), tr, mem);
      && CellsOf(mem', out).Keys == CellsOf(mem, out).Keys
      && DefinedAt(TLoads(t), mem, p)
      && CellsOf(mem', out)[p] == if Hits(tr, p) then ValueAt(A, t, mem, p) else CellsOf(mem, out)[p]
  {
    if tr != [] {
      var M, a := A.Machine(), tr[0];
      assert a in tr;
      var mem1 := Step(M, a, mem);
      StoreLeaves(A, a, t, mem, p);
      FilledCells(A, tr[1..], out, t, mem1, p);
      ValueAgree(A, t, mem1, p, mem, p);
      assert Hits(tr, p) <==> InRegion(a.Where(), p) || Hits(tr[1..], p);
    }
  }

  lemma StoreLeaves<S(!new)>(A: Arithmetic<S>, a: Act, t: Template, mem: Mem<Cells<S>>, p: Coord)
    requires PointwiseArithmetic(A) && FillsWith([a], a.tensor, t, mem) && p in CellsOf(mem, a.tensor)
    ensures var mem1 := Step(A.Machine(), a, mem);
      && CellsOf(mem1, a.tensor).Keys == CellsOf(mem, a.tensor).Keys
      && (forall n :: n != a.tensor ==> CellsOf(mem1, n) == CellsOf(mem, n))
      && DefinedAt(TLoads(t), mem, p)
      && CellsOf(mem1, a.tensor)[p] ==
        if InRegion(a.Where(), p) then ValueAt(A, t, mem, p) else CellsOf(mem, a.tensor)[p]
  {
    var M, c, r := A.Machine(), CellsOf(mem, a.tensor), a.Where();
    assert a in [a];
    EvalBuild(A, t, a.index, a.env, mem, c.Keys);
    assert Get(M, mem, a.tensor) == c;
    WrittenCell(A, c, r, t, mem, p);
  }

  /** A template's tile writes the template's value in every cell of the region. */
  lemma WrittenCell<S>(A: Arithmetic<S>, c: Cells<S>, r: Region, t: Template, mem: Mem<Cells<S>>, p: Coord)
    requires Shaped(TLoads(t), mem, c.Keys) && p in c && TLoads(t) != {}
    ensures DefinedAt(TLoads(t), mem, p)
    ensures Written(c, r, TileOf(A, t, mem, c.Keys, r), p) == if InRegion(r, p) then ValueAt(A, t, mem, p) else c[p]
  {
    if InRegion(r, p) {
      AbsoluteRelative(r, p);
      assert Relative(r, p) in RegionCoords(c.Keys, r);
    }
  }

  lemma OthersStay<S>(A: Arithmetic<S>, tr: seq<Act>, out: Name, mem: Mem<Cells<S>>, n: Name)
    requires n != out && forall a :: a in tr ==> a.tensor == out
    ensures CellsOf(Run(A.Machine(), tr, mem), n) == CellsOf(mem, n)
  {
    RunFrame(A.Machine(), tr, n, mem);
    assert Get(A.Machine(), mem, n) == CellsOf(mem, n);
    assert Get(A.Machine(), Run(A.Machine(), tr, mem), n) == CellsOf(Run(A.Machine(), tr, mem), n);
  }

  // ---------------------------------------------------------------------------------------------
  // Removing the loop hits the same cells

  predicate Mentions(a: Atom, x: Name) { (a.Tile? || a.TileOffset? || a.Elem?) && Clean(a.name) == Clean(x) }

  /** The variable walks over dimension d alone, tile by tile. */
  predicate WalksOver(ix: Index, d: nat, x: Name) {
    && d < |ix| && ix[d].Tile? && Clean(ix[d].name) == Clean(x)
    && forall e :: 0 <= e < |ix| && e != d ==> !Mentions(ix[e], x)
  }

  predicate BoundFree(b: Bound, x: Name) { b.VarRef? ==> Clean(b.name) != Clean(x) }

  /** Loops around the store neither bind the variable again nor depend on it. */
  predicate FreeOf(s: Stmt, x: Name) {
    match s
    case Store(_, _, _) => true
    case Loop(lo, hi, _, y, b) => Clean(y) != Clean(x) && BoundFree(lo, x) && BoundFree(hi, x) && FreeOf(b, x)
    case Seq(_, _) => false
    case Block(ss) => |ss| == 1 && FreeOf(ss[0], x)
  }

  lemma {:induction false} LoopHits(size: string -> pos, b: Stmt, x: Name, step: pos, lo: int, hi: int, env: Env,
      p: Coord)
    ensures Hits(LoopTrace(size, b, x, step, lo, hi, env), p) <==>
      exists v :: Visits(v, step, lo, hi) && Hits(Trace(size, b, Bind(env, x, v, step)), p)
    decreases if lo < hi then hi - lo else 0
  {
    if lo < hi {
      LoopHits(size, b, x, step, lo + step, hi, env, p);
      var first, rest := Trace(size, b, Bind(env, x, lo, step)), LoopTrace(size, b, x, step, lo + step, hi, env);
      HitsEither(first, rest, p);
      if v :| Visits(v, step, lo, hi) && Hits(Trace(size, b, Bind(env, x, v, step)), p) {
        if v != lo { NextVisited(v, step, lo, hi); }
      }
      assert Visits(lo, step, lo, hi);
      forall v | Visits(v, step, lo + step, hi) ensures Visits(v, step, lo, hi) { LaterVisited(v, step, lo, hi); }
    }
  }

  lemma HitsEither(a: seq<Act>, b: seq<Act>, p: Coord)
    ensures Hits(a + b, p) <==> Hits(a, p) || Hits(b, p)
  {
  }

  /** The tile a covered place is in. */
  lemma TileOfPlace(c: int, step: pos, lo: int, hi: int)
    requires lo <= c < hi
    ensures exists v :: Visits(v, step, lo, hi) && v <= c < v + step
  {
    var q, r := (c - lo) / step, (c - lo) % step;
    var v := lo + q * step;
    assert c - lo == q * step + r;
    var width: int := step;
    assert q <= -1 ==> q * width <= -width;
    assert q >= 0 ==> q * width >= 0;
    RemainderUnique(q, 0, step);
    assert Visits(v, step, lo, hi);
  }

  predicate PlainAtom(a: Atom) { a.Tile? || a.TileOffset? || a.Elem? ==> PlainName(a.name) }
  predicate PlainIndex(ix: Index) { forall e :: 0 <= e < |ix| ==> PlainAtom(ix[e]) }

  predicate PlainLoops(s: Stmt) { forall y :: y in LoopVars(s) ==> PlainName(y) }

  /** Filling in the variable, against taking the whole dimension. */
  lemma CoordinateHits(a: Atom, x: Name, v: int, step: pos, env: Env, c: int)
    requires PlainName(x) && PlainAtom(a)
    ensures !Mentions(a, x) ==>
      Resolve(a, Bind(env, x, v, step)) == Resolve(InnerLoops.ElimAtom(a, InnerLoops.Spellings(x)), env)
    ensures a.Tile? && Mentions(a, x) ==>
      (InExtent(Resolve(a, Bind(env, x, v, step)), c) <==> v <= c < v + step) &&
        InnerLoops.ElimAtom(a, InnerLoops.Spellings(x)) == FullTile
  {
    if a.Tile? || a.TileOffset? || a.Elem? {
      InnerLoops.HitIsSameVariable(x, a.name);
      LookupBind(env, x, v, step, a.name);
    }
  }

  lemma RegionHits(ix: Index, d: nat, x: Name, v: int, step: pos, env: Env, p: Coord)
    requires PlainName(x) && PlainIndex(ix) && WalksOver(ix, d, x) && d < |p|
    ensures InRegion(ResolveAll(ix, Bind(env, x, v, step)), p) <==>
      InRegion(ResolveAll(InnerLoops.ElimIndex(ix, InnerLoops.Spellings(x)), env), p) && v <= p[d] < v + step
  {
    if |p| == |ix| {
      forall e | 0 <= e < |ix| && e != d
        ensures InExtent(Resolve(ix[e], Bind(env, x, v, step)), p[e]) <==>
          InExtent(Resolve(InnerLoops.ElimIndex(ix, InnerLoops.Spellings(x))[e], env), p[e])
      {
        CoordinateHits(ix[e], x, v, step, env, p[e]);
      }
      CoordinateHits(ix[d], x, v, step, env, p[d]);
      RegionsAgree(ix, d, x, v, step, env, p);
    }
  }

  lemma RegionsAgree(ix: Index, d: nat, x: Name, v: int, step: pos, env: Env, p: Coord)
    requires d < |p| == |ix|
    requires forall e :: 0 <= e < |ix| && e != d ==>
      (InExtent(Resolve(ix[e], Bind(env, x, v, step)), p[e]) <==>
        InExtent(Resolve(InnerLoops.ElimIndex(ix, InnerLoops.Spellings(x))[e], env), p[e]))
    requires InExtent(Resolve(ix[d], Bind(env, x, v, step)), p[d]) <==> v <= p[d] < v + step
    requires InnerLoops.ElimIndex(ix, InnerLoops.Spellings(x))[d] == FullTile
    ensures InRegion(ResolveAll(ix, Bind(env, x, v, step)), p) <==>
      InRegion(ResolveAll(InnerLoops.ElimIndex(ix, InnerLoops.Spellings(x)), env), p) && v <= p[d] < v + step
  {
    var r, q := ResolveAll(ix, Bind(env, x, v, step)),
      ResolveAll(InnerLoops.ElimIndex(ix, InnerLoops.Spellings(x)), env);
    forall e | 0 <= e < |ix| && e != d ensures InExtent(r[e], p[e]) <==> InExtent(q[e], p[e]) {}
    assert InExtent(q[d], p[d]);
    assert InExtent(r[d], p[d]) <==> v <= p[d] < v + step;
  }

  lemma OneActHits(size: string -> pos, t: Name, v: Expr, ix: Index, env: Env, p: Coord)
    ensures Hits(Trace(size, Store(t, v, ix), env), p) <==> InRegion(ResolveAll(ix, env), p)
  {
    var a := Act(t, v, ix, env);
    assert Trace(size, Store(t, v, ix), env) == [a] && a in [a];
  }

  /** Some round's tile reaches the place. */
  ghost predicate Reached(c: int, step: pos, lo: int, hi: int) {
    exists v :: Visits(v, step, lo, hi) && v <= c < v + step
  }

  /** Over all rounds of the loop, the nest hits what it hits once with the dimension taken whole, where the
      rounds reach. */
  ghost predicate SameHits(size: string -> pos, s: Stmt, d: nat, x: Name, step: pos, lo: int, hi: int, env: Env,
      p: Coord)
    requires d < |p|
  {
    (exists v :: Visits(v, step, lo, hi) && Hits(Trace(size, s, Bind(env, x, v, step)), p)) <==>
      Hits(Trace(size, InnerLoops.Elim(s, InnerLoops.Spellings(x)), env), p) && Reached(p[d], step, lo, hi)
  }

  lemma {:induction false} NestHits(size: string -> pos, s: Stmt, d: nat, x: Name, step: pos, lo: int, hi: int,
      env: Env, p: Coord)
    requires SingleStore(s).Some? && FreeOf(s, x) && PlainName(x) && PlainLoops(s)
    requires var ix := SingleStore(s).value.index; PlainIndex(ix) && WalksOver(ix, d, x)
    requires d < |p|
    ensures SameHits(size, s, d, x, step, lo, hi, env, p)
    decreases s
  {
    match s
    case Store(t, v, ix) => StoreHits(size, t, v, ix, d, x, step, lo, hi, env, p);
    case Loop(lo1, hi1, tile, y, b) =>
      InnerLoops.HitIsSameVariable(x, y);
      forall w ensures SameHits(size, b, d, x, step, lo, hi, Bind(env, y, w, size(tile)), p) {
        NestHits(size, b, d, x, step, lo, hi, Bind(env, y, w, size(tile)), p);
      }
      InnerLoopHits(size, s, d, x, step, lo, hi, env, p);
    case Block(ss) =>
      NestHits(size, ss[0], d, x, step, lo, hi, env, p);
      forall env' ensures Trace(size, s, env') == Trace(size, ss[0], env') { OneOfBlock(size, ss, env'); }
      OneOfBlock(size, InnerLoops.ElimAll(ss, InnerLoops.Spellings(x)), env);
  }

  lemma OneOfBlock(size: string -> pos, ss: seq<Stmt>, env: Env)
    requires |ss| == 1
    ensures Trace(size, Block(ss), env) == Trace(size, ss[0], env)
  {
    assert TraceAll(size, ss, env) == Trace(size, ss[0], env) + TraceAll(size, ss[1..], env);
  }

  lemma StoreHits(size: string -> pos, t: Name, e: Expr, ix: Index, d: nat, x: Name, step: pos, lo: int, hi: int,
      env: Env, p: Coord)
    requires PlainName(x) && PlainIndex(ix) && WalksOver(ix, d, x) && d < |p|
    ensures SameHits(size, Store(t, e, ix), d, x, step, lo, hi, env, p)
  {
    var names := InnerLoops.Spellings(x);
    OneActHits(size, t, InnerLoops.ElimExpr(e, names), InnerLoops.ElimIndex(ix, names), env, p);
    forall v ensures Hits(Trace(size, Store(t, e, ix), Bind(env, x, v, step)), p) <==>
      InRegion(ResolveAll(InnerLoops.ElimIndex(ix, names), env), p) && v <= p[d] < v + step
    {
      OneActHits(size, t, e, ix, Bind(env, x, v, step), p);
      RegionHits(ix, d, x, v, step, env, p);
    }
  }

  lemma BindsCommute(env: Env, x: Name, v: int, step: pos, y: Name, w: int, width: pos)
    requires Clean(x) != Clean(y)
    ensures Bind(Bind(env, x, v, step), y, w, width) == Bind(Bind(env, y, w, width), x, v, step)
  {
  }

  // One loop between: its rounds and those of the removed loop may be taken in either order.

  function HitBoth(size: string -> pos, s: Stmt, x: Name, step: pos, env: Env, p: Coord): (int, int) -> bool
    requires s.Loop?
  {
    (v: int, w: int) => Hits(Trace(size, s.body, Bind(Bind(env, s.loopVar, w, size(s.tile)), x, v, step)), p)
  }

  function HitWithout(size: string -> pos, s: Stmt, x: Name, env: Env, p: Coord): int -> bool
    requires s.Loop?
  {
    (w: int) => Hits(Trace(size, InnerLoops.Elim(s.body, InnerLoops.Spellings(x)),
      Bind(env, s.loopVar, w, size(s.tile))), p)
  }

  function HitRound(size: string -> pos, s: Stmt, x: Name, step: pos, env: Env, p: Coord): int -> bool {
    (v: int) => Hits(Trace(size, s, Bind(env, x, v, step)), p)
  }

  function Within(step: pos, lo: int, hi: int): int -> bool { (v: int) => Visits(v, step, lo, hi) }

  lemma InnerLoopHits(size: string -> pos, s: Stmt, d: nat, x: Name, step: pos, lo: int, hi: int, env: Env, p: Coord)
    requires d < |p| && s.Loop? && FreeOf(s, x) && !InnerLoops.Hit(InnerLoops.Spellings(x), s.loopVar)
    requires forall w :: SameHits(size, s.body, d, x, step, lo, hi, Bind(env, s.loopVar, w, size(s.tile)), p)
    ensures SameHits(size, s, d, x, step, lo, hi, env, p)
  {
    var width, from, upto := size(s.tile), BoundValue(s.start, env), BoundValue(s.end, env);
    var hit, without, round :=
      HitBoth(size, s, x, step, env, p), HitWithout(size, s, x, env, p), HitRound(size, s, x, step, env, p);
    var inner, outer := Within(width, from, upto), Within(step, lo, hi);
    forall w ensures (exists v :: outer(v) && hit(v, w)) <==> without(w) && Reached(p[d], step, lo, hi) {
      BodyHits(size, s, d, x, step, lo, hi, env, p, w);
    }
    forall v ensures round(v) <==> exists w :: inner(w) && hit(v, w) { RoundHits(size, s, x, v, step, env, p); }
    WithoutHits(size, s, x, env, p);
    SwapRange(hit, without, inner, outer, round, Reached(p[d], step, lo, hi),
      Hits(Trace(size, InnerLoops.Elim(s, InnerLoops.Spellings(x)), env), p));
    AroundHits(size, s, d, x, step, lo, hi, env, p);
  }

  lemma BodyHits(size: string -> pos, s: Stmt, d: nat, x: Name, step: pos, lo: int, hi: int, env: Env, p: Coord, w: int)
    requires d < |p| && s.Loop? && SameHits(size, s.body, d, x, step, lo, hi, Bind(env, s.loopVar, w, size(s.tile)), p)
    ensures (exists v :: Within(step, lo, hi)(v) && HitBoth(size, s, x, step, env, p)(v, w)) <==>
      HitWithout(size, s, x, env, p)(w) && Reached(p[d], step, lo, hi)
  {
    var outer, hit := Within(step, lo, hi), HitBoth(size, s, x, step, env, p);
    var env' := Bind(env, s.loopVar, w, size(s.tile));
    if v :| Visits(v, step, lo, hi) && Hits(Trace(size, s.body, Bind(env', x, v, step)), p) {
      assert outer(v) && hit(v, w);
    }
    if v :| outer(v) && hit(v, w) {
      assert Visits(v, step, lo, hi) && Hits(Trace(size, s.body, Bind(env', x, v, step)), p);
    }
  }

  lemma WithoutHits(size: string -> pos, s: Stmt, x: Name, env: Env, p: Coord)
    requires s.Loop? && !InnerLoops.Hit(InnerLoops.Spellings(x), s.loopVar)
    ensures Hits(Trace(size, InnerLoops.Elim(s, InnerLoops.Spellings(x)), env), p) <==>
      exists w ::
        Within(size(s.tile), BoundValue(s.start, env), BoundValue(s.end, env))(w) && HitWithout(size, s, x, env, p)(w)
  {
    var inner, without := Within(size(s.tile), BoundValue(s.start, env), BoundValue(s.end, env)),
      HitWithout(size, s, x, env, p);
    var b' := InnerLoops.Elim(s.body, InnerLoops.Spellings(x));
    LoopHits(size, b', s.loopVar, size(s.tile), BoundValue(s.start, env), BoundValue(s.end, env), env, p);
    if w :|
      Visits(w, size(s.tile), BoundValue(s.start, env), BoundValue(s.end, env)) &&
      Hits(Trace(size, b', Bind(env, s.loopVar, w, size(s.tile))), p) {
      assert inner(w) && without(w);
    }
    if w :| inner(w) && without(w) {
      assert Visits(w, size(s.tile), BoundValue(s.start, env), BoundValue(s.end, env)) &&
        Hits(Trace(size, b', Bind(env, s.loopVar, w, size(s.tile))), p);
    }
  }

  lemma RoundHits(size: string -> pos, s: Stmt, x: Name, v: int, step: pos, env: Env, p: Coord)
    requires s.Loop? && FreeOf(s, x)
    ensures HitRound(size, s, x, step, env, p)(v) <==>
      exists w ::
        Within(size(s.tile), BoundValue(s.start, env), BoundValue(s.end, env))(w) &&
        HitBoth(size, s, x, step, env, p)(v, w)
  {
    var y, width, env' := s.loopVar, size(s.tile), Bind(env, x, v, step);
    var from, upto := BoundValue(s.start, env), BoundValue(s.end, env);
    var inner, hit := Within(width, from, upto), HitBoth(size, s, x, step, env, p);
    assert BoundValue(s.start, env') == from && BoundValue(s.end, env') == upto;
    LoopHits(size, s.body, y, width, from, upto, env', p);
    forall w
      ensures Bind(env', y, w, width) == Bind(Bind(env, y, w, width), x, v, step)
    {
      BindsCommute(env, x, v, step, y, w, width);
    }
    if w :| Visits(w, width, from, upto) && Hits(Trace(size, s.body, Bind(env', y, w, width)), p) {
      assert inner(w) && hit(v, w);
    }
    if w :| inner(w) && hit(v, w) {
      assert Visits(w, width, from, upto) && Hits(Trace(size, s.body, Bind(env', y, w, width)), p);
    }
  }

  lemma AroundHits(size: string -> pos, s: Stmt, d: nat, x: Name, step: pos, lo: int, hi: int, env: Env, p: Coord)
    requires d < |p|
    requires (exists v :: Within(step, lo, hi)(v) && HitRound(size, s, x, step, env, p)(v)) <==>
      Hits(Trace(size, InnerLoops.Elim(s, InnerLoops.Spellings(x)), env), p) && Reached(p[d], step, lo, hi)
    ensures SameHits(size, s, d, x, step, lo, hi, env, p)
  {
    var outer, round := Within(step, lo, hi), HitRound(size, s, x, step, env, p);
    if v :| Visits(v, step, lo, hi) && Hits(Trace(size, s, Bind(env, x, v, step)), p) { assert outer(v) && round(v); }
    if v :| outer(v) && round(v) { assert Visits(v, step, lo, hi) && Hits(Trace(size, s, Bind(env, x, v, step)), p); }
  }

  lemma SwapRange(hit: (int, int) -> bool, without: int -> bool, inner: int -> bool, outer: int -> bool,
      round: int -> bool, reached: bool, after: bool)
    requires forall w :: (exists v :: outer(v) && hit(v, w)) <==> without(w) && reached
    requires forall v :: round(v) <==> exists w :: inner(w) && hit(v, w)
    requires after <==> exists w :: inner(w) && without(w)
    ensures (exists v :: outer(v) && round(v)) <==> after && reached
  {
    if after && reached {
      var w :| inner(w) && without(w);
      var v :| outer(v) && hit(v, w);
      assert round(v);
    }
    if v :| outer(v) && round(v) {
      var w :| inner(w) && hit(v, w);
      assert without(w) && reached;
    }
  }

  // ---------------------------------------------------------------------------------------------
  // The chain with the loop in it

  /** The chain has a loop of x from lo to hi with this tile, and the loops inside it do not depend on it. */
  predicate Walked(root: Stmt, x: Name, lo: int, hi: int, tile: string) {
    match root
    case Loop(l, h, t, y, b) =>
      if y == x then l == Num(lo) && h == Num(hi) && t == tile && FreeOf(b, x)
        else Clean(y) != Clean(x) && Walked(b, x, lo, hi, tile)
    case _ => false
  }

  lemma {:induction false} ChainHits(size: string -> pos, root: Stmt, d: nat, x: Name, lo: int, hi: int, tile: string,
      env: Env, p: Coord)
    requires SingleStore(root).Some? && Walked(root, x, lo, hi, tile) && PlainName(x) && PlainLoops(root)
    requires var ix := SingleStore(root).value.index; PlainIndex(ix) && WalksOver(ix, d, x)
    requires d < |p|
    ensures Hits(Trace(size, root, env), p) <==>
      Hits(Trace(size, InnerLoops.Elim(root, InnerLoops.Spellings(x)), env), p) && Reached(p[d], size(tile), lo, hi)
    decreases root
  {
    var names := InnerLoops.Spellings(x);
    var y, b, step := root.loopVar, root.body, size(root.tile);
    if y == x {
      assert names + names == names;
      LoopHits(size, b, x, step, lo, hi, env, p);
      NestHits(size, b, d, x, step, lo, hi, env, p);
    } else {
      InnerLoops.HitIsSameVariable(x, y);
      var from, upto := BoundValue(root.start, env), BoundValue(root.end, env);
      LoopHits(size, b, y, step, from, upto, env, p);
      LoopHits(size, InnerLoops.Elim(b, names), y, step, from, upto, env, p);
      forall w ensures Hits(Trace(size, b, Bind(env, y, w, step)), p) <==>
        Hits(Trace(size, InnerLoops.Elim(b, names), Bind(env, y, w, step)), p) && Reached(p[d], size(tile), lo, hi)
      {
        ChainHits(size, b, d, x, lo, hi, tile, Bind(env, y, w, step), p);
      }
    }
  }

  lemma {:induction false} ElimBuild(t: Template, ix: Index, names: set<Name>)
    ensures InnerLoops.ElimExpr(Build(t, ix), names) == Build(t, InnerLoops.ElimIndex(ix, names))
  {
    if t.TOp? {
      forall k | 0 <= k < |t.args|
        ensures InnerLoops.ElimExpr(Build(t.args[k], ix), names) == Build(t.args[k], InnerLoops.ElimIndex(ix, names))
      {
        ElimBuild(t.args[k], ix, names);
      }
      assert seq(|t.args|, k requires 0 <= k < |t.args| => InnerLoops.ElimExpr(BuildAll(t.args, ix)[k], names)) ==
        BuildAll(t.args, InnerLoops.ElimIndex(ix, names));
    }
  }

  lemma {:induction false} ElimInside(s: Stmt, x: Name)
    requires SingleStore(s).Some? && FreeOf(s, x) && PlainName(x) && PlainLoops(s)
    ensures SingleStore(InnerLoops.Elim(s, InnerLoops.Spellings(x))) ==
      Some(InnerLoops.Elim(SingleStore(s).value, InnerLoops.Spellings(x)))
  {
    match s
    case Store(_, _, _) =>
    case Loop(_, _, _, y, b) =>
      InnerLoops.HitIsSameVariable(x, y);
      ElimInside(b, x);
    case Block(ss) => ElimInside(ss[0], x);
  }

  lemma {:induction false} ElimChain(root: Stmt, x: Name, lo: int, hi: int, tile: string)
    requires SingleStore(root).Some? && Walked(root, x, lo, hi, tile) && PlainName(x) && PlainLoops(root)
    ensures SingleStore(InnerLoops.Elim(root, InnerLoops.Spellings(x))) ==
      Some(InnerLoops.Elim(SingleStore(root).value, InnerLoops.Spellings(x)))
  {
    var names := InnerLoops.Spellings(x);
    if root.loopVar == x {
      assert names + names == names;
      ElimInside(root.body, x);
    } else {
      InnerLoops.HitIsSameVariable(x, root.loopVar);
      ElimChain(root.body, x, lo, hi, tile);
    }
  }

  /** The store of an elementwise nest over tensors of one shape. */
  ghost predicate ElementwiseNest<S>(root: Stmt, mem: Mem<Cells<S>>) {
    SingleStore(root).Some? &&
    var store := SingleStore(root).value;
    && Extract(store.value, store.index).Some? && Loads(store.value) != {} && store.tensor !in Loads(store.value)
    && Shaped(Loads(store.value), mem, CellsOf(mem, store.tensor).Keys)
  }

  lemma NestFillsWith<S>(size: string -> pos, root: Stmt, out: Name, t: Template, ix: Index, env: Env,
      mem: Mem<Cells<S>>)
    requires SingleStore(root) == Some(Store(out, Build(t, ix), ix)) && WellFormed(t) && TLoads(t) != {}
    requires out !in TLoads(t) && Shaped(TLoads(t), mem, CellsOf(mem, out).Keys)
    ensures FillsWith(Trace(size, root, env), out, t, mem)
  {
    NestActs(size, root, env);
  }

  /** Everything but covering: an elementwise nest with a loop that walks over one dimension of its tensor. */
  ghost predicate Removable<S>(root: Stmt, x: Name, d: nat, lo: int, hi: int, tile: string, mem: Mem<Cells<S>>) {
    && ElementwiseNest(root, mem) && Walked(root, x, lo, hi, tile) && PlainName(x) && PlainLoops(root)
    && PlainIndex(SingleStore(root).value.index) && WalksOver(SingleStore(root).value.index, d, x)
    && forall p :: p in CellsOf(mem, SingleStore(root).value.tensor) ==> d < |p|
  }

  /** The cells only the nest without the loop writes already hold what it writes. */
  ghost predicate NothingNew<S>(A: Arithmetic<S>, root: Stmt, x: Name, d: nat, lo: int, hi: int, tile: string, env: Env,
      mem: Mem<Cells<S>>)
    requires Removable(root, x, d, lo, hi, tile, mem)
  {
    var store := SingleStore(root).value;
    ExtractBuilds(store.value, store.index);
    var t, c := Extract(store.value, store.index).value, CellsOf(mem, store.tensor);
    var tr := Trace(A.size, InnerLoops.Elim(root, InnerLoops.Spellings(x)), env);
    forall p :: p in c && Hits(tr, p) && !Reached(p[d], A.size(tile), lo, hi) ==> c[p] == ValueAt(A, t, mem, p)
  }

  ghost predicate SameCells<S>(m1: Mem<Cells<S>>, m2: Mem<Cells<S>>) { forall n :: CellsOf(m1, n) == CellsOf(m2, n) }

  /** Removing the loop changes nothing exactly when the cells its rounds do not reach, and the nest without
      it writes, hold what it writes. */
  lemma RemovalIff<S(!new)>(A: Arithmetic<S>, root: Stmt, x: Name, d: nat, lo: int, hi: int, tile: string, env: Env,
      mem: Mem<Cells<S>>)
    requires PointwiseArithmetic(A) && Removable(root, x, d, lo, hi, tile, mem)
    ensures SameCells(Exec(A.Machine(), InnerLoops.Elim(root, InnerLoops.Spellings(x)), env, mem),
      Exec(A.Machine(), root, env, mem)) <==>
      NothingNew(A, root, x, d, lo, hi, tile, env, mem)
  {
    var names := InnerLoops.Spellings(x);
    var store, root' := SingleStore(root).value, InnerLoops.Elim(root, names);
    var t, out := Extract(store.value, store.index).value, store.tensor;
    ExtractBuilds(store.value, store.index);
    ElimChain(root, x, lo, hi, tile);
    ElimBuild(t, store.index, names);
    NestFillsWith(A.size, root, out, t, store.index, env, mem);
    NestFillsWith(A.size, root', out, t, InnerLoops.ElimIndex(store.index, names), env, mem);
    forall p | p in CellsOf(mem, out)
      ensures Hits(Trace(A.size, root, env), p) <==>
        Hits(Trace(A.size, root', env), p) && Reached(p[d], A.size(tile), lo, hi)
    {
      ChainHits(A.size, root, d, x, lo, hi, tile, env, p);
    }
    ExecIsRun(A.Machine(), root, env, mem);
    ExecIsRun(A.Machine(), root', env, mem);
    FewerHitsIff(A, Trace(A.size, root', env), Trace(A.size, root, env), out, t, mem);
  }

  /** Of two such runs where the second hits less: they leave the same cells exactly when those only the
      first hits hold the template's value already. */
  lemma FewerHitsIff<S(!new)>(A: Arithmetic<S>, tr: seq<Act>, tr': seq<Act>, out: Name, t: Template, mem: Mem<Cells<S>>)
    requires PointwiseArithmetic(A) && FillsWith(tr, out, t, mem) && FillsWith(tr', out, t, mem)
    requires forall p :: p in CellsOf(mem, out) && Hits(tr', p) ==> Hits(tr, p)
    ensures SameCells(Run(A.Machine(), tr, mem), Run(A.Machine(), tr', mem)) <==>
      forall p :: p in CellsOf(mem, out) && Hits(tr, p) && !Hits(tr', p) ==>
        CellsOf(mem, out)[p] == ValueAt(A, t, mem, p)
  {
    var m1, m2, c := Run(A.Machine(), tr, mem), Run(A.Machine(), tr', mem), CellsOf(mem, out);
    ShapesKept(A, tr, mem, out);
    ShapesKept(A, tr', mem, out);
    forall p | p in c
      ensures CellsOf(m1, out)[p] == (if Hits(tr, p) then ValueAt(A, t, mem, p) else c[p]) &&
        CellsOf(m2, out)[p] == (if Hits(tr', p) then ValueAt(A, t, mem, p) else c[p])
    {
      FilledCells(A, tr, out, t, mem, p);
      FilledCells(A, tr', out, t, mem, p);
    }
    forall n | n != out ensures CellsOf(m1, n) == CellsOf(m2, n) {
      OthersStay(A, tr, out, mem, n);
      OthersStay(A, tr', out, mem, n);
    }
    if forall p :: p in c && Hits(tr, p) && !Hits(tr', p) ==> c[p] == ValueAt(A, t, mem, p) {
      assert CellsOf(m1, out) == CellsOf(m2, out);
    }
  }

  /** The loop covers its dimension. */
  ghost predicate Covered<S>(root: Stmt, d: nat, lo: int, hi: int, mem: Mem<Cells<S>>)
    requires SingleStore(root).Some?
  {
    forall p :: p in CellsOf(mem, SingleStore(root).value.tensor) ==> d < |p| && lo <= p[d] < hi
  }

  /** Removing a loop that walks over one dimension of an elementwise nest, and covers it, changes nothing. */
  lemma RemovalKeepsMeaning<S(!new)>(A: Arithmetic<S>, root: Stmt, x: Name, d: nat, lo: int, hi: int, tile: string,
      env: Env, mem: Mem<Cells<S>>)
    requires PointwiseArithmetic(A) && Removable(root, x, d, lo, hi, tile, mem) && Covered(root, d, lo, hi, mem)
    ensures SameCells(Exec(A.Machine(), InnerLoops.Elim(root, InnerLoops.Spellings(x)), env, mem),
      Exec(A.Machine(), root, env, mem))
  {
    forall p | p in CellsOf(mem, SingleStore(root).value.tensor)
      ensures Reached(p[d], A.size(tile), lo, hi)
    {
      TileOfPlace(p[d], A.size(tile), lo, hi);
    }
    RemovalIff(A, root, x, d, lo, hi, tile, env, mem);
  }

  // ---------------------------------------------------------------------------------------------
  // The whole pass

  ghost predicate CanRemove<S>(root: Stmt, x: Name, mem: Mem<Cells<S>>) {
    exists d: nat, lo, hi, tile :: Removable(root, x, d, lo, hi, tile, mem) && Covered(root, d, lo, hi, mem)
  }

  /** Every loop the pass removes may go when it is removed; only shapes are looked at. */
  ghost predicate RemovalAllowed<S>(s: Stmt, maxExtent: int, shape: Mem<Cells<S>>)
    decreases InnerLoops.LoopCount(s), s
  {
    match s
    case Store(_, _, _) => true
    case Seq(l, r) => RemovalAllowed(l, maxExtent, shape) && RemovalAllowed(r, maxExtent, shape)
    case Block(ss) => AllRemovalAllowed(ss, maxExtent, shape)
    case Loop(_, _, _, _, b) =>
      InnerLoops.NextShrinks(s, maxExtent);
      var next := InnerLoops.Next(s, maxExtent);
      if next.Some? then
        CanRemove(s, next.value, shape) &&
        RemovalAllowed(InnerLoops.Elim(s, InnerLoops.Spellings(next.value)), maxExtent, shape)
      else RemovalAllowed(b, maxExtent, shape)
  }

  ghost predicate AllRemovalAllowed<S>(ss: seq<Stmt>, maxExtent: int, shape: Mem<Cells<S>>)
    decreases InnerLoops.LoopCountAll(ss), ss
  {
    ss == [] || (RemovalAllowed(ss[0], maxExtent, shape) && AllRemovalAllowed(ss[1..], maxExtent, shape))
  }

  lemma SameCellsExec<S>(A: Arithmetic<S>, s: Stmt, env: Env, m1: Mem<Cells<S>>, m2: Mem<Cells<S>>)
    requires SameCells(m1, m2)
    ensures SameCells(Exec(A.Machine(), s, env, m1), Exec(A.Machine(), s, env, m2))
  {
    var M, all := A.Machine(), AllBut({});
    forall n ensures Get(M, m1, n) == Get(M, m2, n) { assert CellsOf(m1, n) == CellsOf(m2, n); }
    ExecAgree(M, s, env, all, m1, m2);
    forall n ensures CellsOf(Exec(M, s, env, m1), n) == CellsOf(Exec(M, s, env, m2), n) {
      assert n in all && Get(M, Exec(M, s, env, m1), n) == Get(M, Exec(M, s, env, m2), n);
    }
  }

  lemma CanRemoveFits<S>(root: Stmt, x: Name, shape: Mem<Cells<S>>, mem: Mem<Cells<S>>)
    requires CanRemove(root, x, shape) && SameKeys(mem, shape)
    ensures CanRemove(root, x, mem)
  {
    var d: nat, lo, hi, tile :| Removable(root, x, d, lo, hi, tile, shape) && Covered(root, d, lo, hi, shape);
    assert Removable(root, x, d, lo, hi, tile, mem) && Covered(root, d, lo, hi, mem);
  }

  lemma KeysStay<S>(A: Arithmetic<S>, s: Stmt, env: Env, mem: Mem<Cells<S>>, shape: Mem<Cells<S>>)
    requires SameKeys(mem, shape)
    ensures SameKeys(Exec(A.Machine(), s, env, mem), shape)
  {
    ExecIsRun(A.Machine(), s, env, mem);
    forall n
      ensures CellsOf(Exec(A.Machine(), s, env, mem), n).Keys == CellsOf(shape, n).Keys
    {
      ShapesKept(A, Trace(A.size, s, env), mem, n);
    }
  }

  /** The whole pass: if every loop it removes walks over and covers a dimension of an elementwise nest, the
      program does to every tensor what it did. */
  lemma {:induction false} RemovedKeepsMeaning<S(!new)>(A: Arithmetic<S>, s: Stmt, maxExtent: int, env: Env,
      mem: Mem<Cells<S>>, shape: Mem<Cells<S>>)
    requires PointwiseArithmetic(A) && SameKeys(mem, shape) && RemovalAllowed(s, maxExtent, shape)
    ensures SameCells(Exec(A.Machine(), InnerLoops.Removed(s, maxExtent), env, mem), Exec(A.Machine(), s, env, mem))
    decreases InnerLoops.LoopCount(s), s, 0
  {
    var M := A.Machine();
    match s
    case Store(_, _, _) =>
    case Seq(l, r) =>
      var l' := InnerLoops.Removed(l, maxExtent);
      RemovedKeepsMeaning(A, l, maxExtent, env, mem, shape);
      KeysStay(A, l, env, mem, shape);
      RemovedKeepsMeaning(A, r, maxExtent, env, Exec(M, l, env, mem), shape);
      SameCellsExec(A, InnerLoops.Removed(r, maxExtent), env, Exec(M, l', env, mem), Exec(M, l, env, mem));
    case Block(ss) => AllRemovedKeepMeaning(A, ss, maxExtent, env, mem, shape);
    case Loop(lo, hi, tile, x, b) =>
      InnerLoops.NextShrinks(s, maxExtent);
      var next := InnerLoops.Next(s, maxExtent);
      if next.Some? {
        OneRemoved(A, s, next.value, env, mem, shape);
        RemovedKeepsMeaning(A, InnerLoops.Elim(s, InnerLoops.Spellings(next.value)), maxExtent, env, mem, shape);
      } else {
        forall env', m | SameKeys(m, shape) ensures BodiesSame(A, b, InnerLoops.Removed(b, maxExtent), env', m) {
          RemovedKeepsMeaning(A, b, maxExtent, env', m, shape);
        }
        SameRounds(A, b, InnerLoops.Removed(b, maxExtent), x, A.size(tile), BoundValue(lo, env), BoundValue(hi, env),
          env, mem, shape);
      }
  }

  lemma OneRemoved<S(!new)>(A: Arithmetic<S>, s: Stmt, x: Name, env: Env, mem: Mem<Cells<S>>, shape: Mem<Cells<S>>)
    requires PointwiseArithmetic(A) && SameKeys(mem, shape) && CanRemove(s, x, shape)
    ensures SameCells(Exec(A.Machine(), InnerLoops.Elim(s, InnerLoops.Spellings(x)), env, mem),
      Exec(A.Machine(), s, env, mem))
  {
    CanRemoveFits(s, x, shape, mem);
    var d: nat, lo, hi, tile :| Removable(s, x, d, lo, hi, tile, mem) && Covered(s, d, lo, hi, mem);
    RemovalKeepsMeaning(A, s, x, d, lo, hi, tile, env, mem);
  }

  ghost predicate BodiesSame<S>(A: Arithmetic<S>, b: Stmt, b': Stmt, env: Env, mem: Mem<Cells<S>>) {
    SameCells(Exec(A.Machine(), b', env, mem), Exec(A.Machine(), b, env, mem))
  }

  // Rounds as turns of a function.

  function Turns<M>(f: (int, M) -> M, step: pos, lo: int, hi: int, m: M): M
    decreases if lo < hi then hi - lo else 0
  {
    if lo >= hi then m else Turns(f, step, lo + step, hi, f(lo, m))
  }

  ghost predicate TurnSame<M(!new)>(f: (int, M) -> M, g: (int, M) -> M, same: (M, M) -> bool, v: int) {
    forall m, m' :: same(m', m) ==> same(g(v, m'), f(v, m))
  }

  lemma {:induction false} TurnsSame<M(!new)>(f: (int, M) -> M, g: (int, M) -> M, same: (M, M) -> bool, step: pos,
      lo: int, hi: int, m: M, m': M)
    requires same(m', m) && forall v :: TurnSame(f, g, same, v)
    ensures same(Turns(g, step, lo, hi, m'), Turns(f, step, lo, hi, m))
    decreases if lo < hi then hi - lo else 0
  {
    if lo < hi {
      assert TurnSame(f, g, same, lo);
      TurnsSame(f, g, same, step, lo + step, hi, f(lo, m), g(lo, m'));
    }
  }

  function TurnOf<S>(A: Arithmetic<S>, b: Stmt, x: Name, step: pos, env: Env): (int, Mem<Cells<S>>) -> Mem<Cells<S>> {
    (v: int, m: Mem<Cells<S>>) => Exec(A.Machine(), b, Bind(env, x, v, step), m)
  }

  lemma {:induction false} LoopIsTurns<S>(A: Arithmetic<S>, b: Stmt, x: Name, step: pos, lo: int, hi: int, env: Env,
      m: Mem<Cells<S>>)
    ensures Iterate(A.Machine(), b, x, step, lo, hi, env, m) == Turns(TurnOf(A, b, x, step, env), step, lo, hi, m)
    decreases if lo < hi then hi - lo else 0
  {
    RoundsBefore(A.Machine(), b, x, step, lo, hi, env, m);
    if lo < hi { LoopIsTurns(A, b, x, step, lo + step, hi, env, TurnOf(A, b, x, step, env)(lo, m)); }
  }

  /** Two memories with the same cells, of these shapes. */
  ghost function Alike<S>(shape: Mem<Cells<S>>): (Mem<Cells<S>>, Mem<Cells<S>>) -> bool {
    (m', m) => SameCells(m', m) && SameKeys(m, shape)
  }

  /** Bodies that do the same make loops that do the same. */
  lemma SameRounds<S(!new)>(A: Arithmetic<S>, b: Stmt, b': Stmt, x: Name, step: pos, lo: int, hi: int, env: Env,
      mem: Mem<Cells<S>>, shape: Mem<Cells<S>>)
    requires SameKeys(mem, shape) && forall env', m :: SameKeys(m, shape) ==> BodiesSame(A, b, b', env', m)
    ensures SameCells(Iterate(A.Machine(), b', x, step, lo, hi, env, mem),
      Iterate(A.Machine(), b, x, step, lo, hi, env, mem))
  {
    var f, g, same := TurnOf(A, b, x, step, env), TurnOf(A, b', x, step, env), Alike(shape);
    forall v ensures TurnSame(f, g, same, v) {
      forall m, m' | same(m', m) ensures same(g(v, m'), f(v, m)) {
        assert BodiesSame(A, b, b', Bind(env, x, v, step), m);
        SameRound(A, b, b', Bind(env, x, v, step), m, m', shape);
      }
    }
    LoopIsTurns(A, b, x, step, lo, hi, env, mem);
    LoopIsTurns(A, b', x, step, lo, hi, env, mem);
    assert same(mem, mem);
    TurnsSame(f, g, same, step, lo, hi, mem, mem);
  }

  lemma SameRound<S(!new)>(A: Arithmetic<S>, b: Stmt, b': Stmt, env: Env, m: Mem<Cells<S>>, m': Mem<Cells<S>>,
      shape: Mem<Cells<S>>)
    requires SameCells(m', m) && SameKeys(m, shape) && BodiesSame(A, b, b', env, m)
    ensures SameCells(Exec(A.Machine(), b', env, m'), Exec(A.Machine(), b, env, m)) &&
      SameKeys(Exec(A.Machine(), b, env, m), shape)
  {
    SameCellsExec(A, b', env, m', m);
    KeysStay(A, b, env, m, shape);
  }

  lemma {:induction false} AllRemovedKeepMeaning<S(!new)>(A: Arithmetic<S>, ss: seq<Stmt>, maxExtent: int, env: Env,
      mem: Mem<Cells<S>>, shape: Mem<Cells<S>>)
    requires PointwiseArithmetic(A) && SameKeys(mem, shape) && AllRemovalAllowed(ss, maxExtent, shape)
    ensures SameCells(ExecAll(A.Machine(), InnerLoops.RemovedAll(ss, maxExtent), env, mem),
      ExecAll(A.Machine(), ss, env, mem))
    decreases InnerLoops.LoopCountAll(ss), ss, 0
  {
    if ss != [] {
      var M, rest := A.Machine(), InnerLoops.RemovedAll(ss[1..], maxExtent);
      RemovedKeepsMeaning(A, ss[0], maxExtent, env, mem, shape);
      KeysStay(A, ss[0], env, mem, shape);
      AllRemovedKeepMeaning(A, ss[1..], maxExtent, env, Exec(M, ss[0], env, mem), shape);
      var m' := Exec(M, InnerLoops.Removed(ss[0], maxExtent), env, mem);
      SameCellsExec(A, Block(rest), env, m', Exec(M, ss[0], env, mem));
      assert InnerLoops.RemovedAll(ss, maxExtent)[1..] == rest;
    }
  }

  // ---------------------------------------------------------------------------------------------
  // A loop that does not cover its dimension

  const COPY := Store("u", Load("t", [Tile("k")]), [Tile("k")])
  const PARTLY := Loop(Num(0), Num(1), "1", "j", Loop(Num(0), Num(1), "1", "k", COPY))

  /** Both tensors have two cells, and differ in the second. */
  ghost predicate DifferAtOne(mem: Mem<Cells<int>>) {
    KeysOf(mem, "t") == {[0], [1]} && KeysOf(mem, "u") == {[0], [1]} && CellsOf(mem, "u")[[1]] != CellsOf(mem, "t")[[1]]
  }

  lemma PartlyRemoved()
    ensures InnerLoops.Next(PARTLY, 1) == Some("k")
    ensures InnerLoops.Elim(PARTLY, InnerLoops.Spellings("k")) ==
      Loop(Num(0), Num(1), "1", "j", Store("u", Load("t", [FullTile]), [FullTile]))
  {
    var inner := PARTLY.body;
    assert Clean("k") == "k" && Clean("j") == "j" && "j" != "k";
    assert inner.body == COPY && InnerLoops.Chain(COPY) == [];
    assert InnerLoops.Chain(inner) == [inner] + [];
    assert InnerLoops.Chain(PARTLY) == [PARTLY] + [inner];
    assert InnerLoops.Eligible(inner, 1);
    assert InnerLoops.Candidates([PARTLY, inner], 1, 1) == [];
    assert InnerLoops.Candidates([PARTLY, inner], 2, 1) == [1];
    var names := InnerLoops.Spellings("k");
    assert !InnerLoops.Hit(names, "j") by { InnerLoops.HitIsSameVariable("k", "j"); }
    assert InnerLoops.ElimIndex([Tile("k")], names) == [FullTile];
    assert InnerLoops.Elim(COPY, names) == Store("u", Load("t", [FullTile]), [FullTile]);
    assert names + names == names;
    assert InnerLoops.Elim(inner, names) == InnerLoops.Elim(COPY, names + names);
  }

  lemma PartlyRemovable(mem: Mem<Cells<int>>)
    requires DifferAtOne(mem)
    ensures Removable(PARTLY, "k", 0, 0, 1, "1", mem)
  {
    var inner := PARTLY.body;
    assert Clean("k") == "k" && Clean("j") == "j" && "j" != "k";
    assert SingleStore(PARTLY) == SingleStore(inner) == Some(COPY);
    assert Extract(COPY.value, COPY.index) == Some(TLoad("t"));
    assert Loads(COPY.value) == {"t"} && "u" !in {"t"};
    assert LoopVars(PARTLY) == {"j"} + LoopVars(inner) && LoopVars(inner) == {"k"} + LoopVars(COPY);
    assert WalksOver([Tile("k")], 0, "k");
  }

  /** The pass removes the loop, which runs once for one of two cells; the other one is then written too. */
  lemma UncoveredInput(A: Arithmetic<int>, mem: Mem<Cells<int>>)
    requires PointwiseArithmetic(A) && A.size("1") == 1 && DifferAtOne(mem)
    ensures InnerLoops.Next(PARTLY, 1) == Some("k")
    ensures !SameCells(Exec(A.Machine(), InnerLoops.Elim(PARTLY, InnerLoops.Spellings("k")), map[], mem),
      Exec(A.Machine(), PARTLY, map[], mem))
  {
    PartlyRemoved();
    PartlyRemovable(mem);
    RemovalIff(A, PARTLY, "k", 0, 0, 1, "1", map[], mem);
    SecondIsNew(A, mem);
  }

  lemma SecondIsNew(A: Arithmetic<int>, mem: Mem<Cells<int>>)
    requires A.size("1") == 1 && DifferAtOne(mem) && Removable(PARTLY, "k", 0, 0, 1, "1", mem)
    ensures !NothingNew(A, PARTLY, "k", 0, 0, 1, "1", map[], mem)
  {
    PartlyRemoved();
    var p: Coord := [1];
    SecondHit(A.size, Loop(Num(0), Num(1), "1", "j", Store("u", Load("t", [FullTile]), [FullTile])), p);
    assert !Reached(1, 1, 0, 1);
    assert SingleStore(PARTLY) == SingleStore(PARTLY.body) == Some(COPY);
    assert Extract(COPY.value, COPY.index) == Some(TLoad("t"));
    assert p in CellsOf(mem, "u") && p[0] == 1;
  }

  lemma SecondHit(size: string -> pos, s: Stmt, p: Coord)
    requires s == Loop(Num(0), Num(1), "1", "j", Store("u", Load("t", [FullTile]), [FullTile])) && |p| == 1
    ensures Hits(Trace(size, s, map[]), p)
  {
    var env := Bind(map[], "j", 0, size("1"));
    OneActHits(size, "u", Load("t", [FullTile]), [FullTile], env, p);
    assert ResolveAll([FullTile], env) == [Full];
    assert Visits(0, size("1"), 0, 1);
    LoopHits(size, s.body, "j", size("1"), 0, 1, map[], p);
  }
}
