/** Loops that the optimizer's dependence check lets split and fuse, on tensors of two cells where the
    result changes: the check looks at read-after-write alone (ReadAfterWriteInput, WriteAfterReadInput,
    WriteAfterWriteInput) and fusion does not compare the tiles (TileInput). */
module LoopInputs {
  import opened Ast
  import opened Text
  import opened LoopNames
  import opened Machines
  import opened Reordering
  import opened LoopRules
  import opened Elements

  function TileSize(tile: string): pos { if tile == "2" then 2 else 1 }
  function Value(text: string): int { if text == "2" then 2 else 1 }
  function Nothing(lo: int, n: int): TileValue<int> { Uniform(0) }

  /** The sum of a tensor of two cells. */
  function Total(op: Oper, vs: seq<TileValue<int>>): TileValue<int> {
    Uniform(if |vs| == 1 && vs[0].Grid? && [0] in vs[0].cells &&
      [1] in vs[0].cells then vs[0].cells[[0]] + vs[0].cells[[1]] else 0)
  }

  function PairMachine(): Machine<Cells<int>, TileValue<int>> { ElementMachine(TileSize, Value, Nothing, Total) }

  function Pair(a: int, b: int): Cells<int> { map[[0] := a, [1] := b] }

  /** The cells of t and those of u. */
  datatype Four = Four(a: int, b: int, c: int, d: int)

  ghost predicate Holds(mem: Mem<Cells<int>>, f: Four) {
    Get(PairMachine(), mem, "t") == Pair(f.a, f.b) && Get(PairMachine(), mem, "u") == Pair(f.c, f.d)
  }

  const FILL := Store("t", Const("1"), [Tile("k")])
  const TOTAL: Expr := Op(ReduceSum(0), [Load("t", [FullTile])])
  const SCAN := Store("u", TOTAL, [Tile("k")])
  const WHOLE := Store("t", Const("1"), [FullTile])
  const MARK := Store("t", Const("2"), [Tile("k")])
  const NUMBER := Store("u", Const("1"), [Elem("k")])

  function Over(tile: string, body: Stmt): Stmt { Loop(Num(0), Num(2), tile, "k", body) }

  function At(v: int, step: pos): Env { map["k" := Binding(v, step)] }

  // ---------------------------------------------------------------------------------------------
  // One store

  lemma InOne(e: Extent, x: int)
    ensures InRegion([e], [x]) <==> InExtent(e, x)
  {
    var r: Region, p: Coord := [e], [x];
    assert r[0] == e && p[0] == x;
  }

  /** Writing one number to one cell, or to both. */
  lemma WritePair(a: int, b: int, e: Extent, v: int)
    ensures WriteCells(Pair(a, b), [e], Uniform(v)) ==
      Pair(if InExtent(e, 0) then v else a, if InExtent(e, 1) then v else b)
  {
    InOne(e, 0);
    InOne(e, 1);
  }

  function Done(s: Stmt, env: Env, mem: Mem<Cells<int>>): Mem<Cells<int>> { Exec(PairMachine(), s, env, mem) }

  lemma StoreT(v: Expr, at: Atom, env: Env, mem: Mem<Cells<int>>, f: Four, x: int)
    requires Holds(mem, f) && Eval(PairMachine(), v, env, mem) == Uniform(x)
    ensures var e := Resolve(at, env);
      Holds(Done(Store("t", v, [at]), env, mem),
        f.(a := if InExtent(e, 0) then x else f.a, b := if InExtent(e, 1) then x else f.b))
  {
    WritePair(f.a, f.b, Resolve(at, env), x);
    OneCoordinate(at, env);
  }

  lemma StoreU(v: Expr, at: Atom, env: Env, mem: Mem<Cells<int>>, f: Four, x: int)
    requires Holds(mem, f) && Eval(PairMachine(), v, env, mem) == Uniform(x)
    ensures var e := Resolve(at, env);
      Holds(Done(Store("u", v, [at]), env, mem),
        f.(c := if InExtent(e, 0) then x else f.c, d := if InExtent(e, 1) then x else f.d))
  {
    WritePair(f.c, f.d, Resolve(at, env), x);
    OneCoordinate(at, env);
  }

  lemma Constants(env: Env, mem: Mem<Cells<int>>)
    ensures Eval(PairMachine(), Const("1"), env, mem) == Uniform(1) &&
      Eval(PairMachine(), Const("2"), env, mem) == Uniform(2)
  {
    Literal("1", env, mem);
    Literal("2", env, mem);
    assert "1"[0] != "2"[0];
  }

  lemma Literal(text: string, env: Env, mem: Mem<Cells<int>>)
    ensures Eval(PairMachine(), Const(text), env, mem) == Uniform(Value(text))
  {
    assert PairMachine().lit(text) == Uniform(Value(text));
  }

  lemma OneCoordinate(at: Atom, env: Env)
    ensures ResolveAll([at], env) == [Resolve(at, env)]
  {
  }

  lemma Tiles(v: int, step: pos)
    ensures Resolve(Tile("k"), At(v, step)) == Span(v, step) && Resolve(Elem("k"), At(v, step)) == Point(v / step)
  {
    assert Clean("k") == "k";
  }

  lemma FillDone(k: int, mem: Mem<Cells<int>>, f: Four)
    requires 0 <= k < 2 && Holds(mem, f)
    ensures Holds(Done(FILL, At(k, 1), mem), if k == 0 then f.(a := 1) else f.(b := 1))
  {
    Tiles(k, 1);
    Constants(At(k, 1), mem);
    StoreT(Const("1"), Tile("k"), At(k, 1), mem, f, 1);
  }

  lemma MarkDone(k: int, mem: Mem<Cells<int>>, f: Four)
    requires 0 <= k < 2 && Holds(mem, f)
    ensures Holds(Done(MARK, At(k, 1), mem), if k == 0 then f.(a := 2) else f.(b := 2))
  {
    Tiles(k, 1);
    Constants(At(k, 1), mem);
    StoreT(Const("2"), Tile("k"), At(k, 1), mem, f, 2);
  }

  lemma WholeDone(k: int, mem: Mem<Cells<int>>, f: Four)
    requires Holds(mem, f)
    ensures Holds(Done(WHOLE, At(k, 1), mem), f.(a := 1, b := 1))
  {
    Constants(At(k, 1), mem);
    StoreT(Const("1"), FullTile, At(k, 1), mem, f, 1);
  }

  lemma ReadTotal(env: Env, mem: Mem<Cells<int>>, f: Four)
    requires Holds(mem, f)
    ensures Eval(PairMachine(), TOTAL, env, mem) == Uniform(f.a + f.b)
  {
    var M, whole: Region := PairMachine(), [Full];
    var load := Load("t", [FullTile]);
    OneCoordinate(FullTile, env);
    InOne(Full, 0);
    InOne(Full, 1);
    assert Absolute(whole, [0]) == [0] && Absolute(whole, [1]) == [1];
    assert Eval(M, load, env, mem) == ReadCells(Pair(f.a, f.b), whole);
    assert EvalAll(M, [load], env, mem) == [ReadCells(Pair(f.a, f.b), whole)];
    assert TOTAL == Op(ReduceSum(0), [load]);
  }

  lemma ScanDone(k: int, mem: Mem<Cells<int>>, f: Four)
    requires 0 <= k < 2 && Holds(mem, f)
    ensures Holds(Done(SCAN, At(k, 1), mem),
      if k == 0 then Four(f.a, f.b, f.a + f.b, f.d) else Four(f.a, f.b, f.c, f.a + f.b))
  {
    ReadTotal(At(k, 1), mem, f);
    StoreAtK(k, SCAN, TOTAL, mem, f, f.a + f.b);
  }

  lemma StoreAtK(k: int, s: Stmt, e: Expr, mem: Mem<Cells<int>>, f: Four, x: int)
    requires 0 <= k < 2 && Holds(mem, f) && s == Store("u", e, [Tile("k")]) &&
      Eval(PairMachine(), e, At(k, 1), mem) == Uniform(x)
    ensures Holds(Done(s, At(k, 1), mem), if k == 0 then Four(f.a, f.b, x, f.d) else Four(f.a, f.b, f.c, x))
  {
    Tiles(k, 1);
    StoreU(e, Tile("k"), At(k, 1), mem, f, x);
  }

  // ---------------------------------------------------------------------------------------------
  // Two rounds

  lemma TwoRounds(body: Stmt, mem: Mem<Cells<int>>)
    ensures Done(Over("1", body), map[], mem) == Done(body, At(1, 1), Done(body, At(0, 1), mem))
  {
    KeyOfK(0, 1);
    KeyOfK(1, 1);
    OneMore(body, 1, 0, mem);
    OneMore(body, 1, 1, Done(body, At(0, 1), mem));
    NoMore(body, 1, 2, Done(body, At(1, 1), Done(body, At(0, 1), mem)));
  }

  lemma KeyOfK(v: int, step: pos)
    ensures Bind(map[], "k", v, step) == At(v, step)
  {
    assert Clean("k") == "k";
  }

  lemma OneMore(body: Stmt, step: pos, v: int, mem: Mem<Cells<int>>)
    requires v < 2
    ensures Iterate(PairMachine(), body, "k", step, v, 2, map[], mem) ==
      Iterate(PairMachine(), body, "k", step, v + step, 2, map[], Done(body, At(v, step), mem))
  {
    KeyOfK(v, step);
  }

  lemma NoMore(body: Stmt, step: pos, v: int, mem: Mem<Cells<int>>)
    requires v >= 2
    ensures Iterate(PairMachine(), body, "k", step, v, 2, map[], mem) == mem
  {
  }

  function Turn(b1: Stmt, b2: Stmt, k: int, mem: Mem<Cells<int>>): Mem<Cells<int>> {
    Done(b2, At(k, 1), Done(b1, At(k, 1), mem))
  }
  function Twice(b: Stmt, mem: Mem<Cells<int>>): Mem<Cells<int>> { Done(b, At(1, 1), Done(b, At(0, 1), mem)) }

  lemma TwoRoundsOf(b1: Stmt, b2: Stmt, mem: Mem<Cells<int>>)
    ensures Done(Over("1", Seq(b1, b2)), map[], mem) == Turn(b1, b2, 1, Turn(b1, b2, 0, mem))
    ensures Done(Seq(Over("1", b1), Over("1", b2)), map[], mem) == Twice(b2, Twice(b1, mem))
  {
    TwoRounds(Seq(b1, b2), mem);
    TwoRounds(b1, mem);
    TwoRounds(b2, Done(Over("1", b1), map[], mem));
  }

  /** Both rules let the loops change: the check finds no read-after-write hazard. */
  ghost predicate Accepted(b1: Stmt, b2: Stmt) {
    && NoRawDependency(b1, b2, "k")
    && Fission(Over("1", Seq(b1, b2))) == Some(Seq(Over("1", b1), Over("1", b2)))
    && FuseLoops(Seq(Over("1", b1), Over("1", b2))) == Some(Over("1", Seq(b1, b2)))
  }

  /** One loop over both bodies leaves these cells, two loops those. */
  ghost predicate Leaves(b1: Stmt, b2: Stmt, mem: Mem<Cells<int>>, one: Four, two: Four) {
    Holds(Done(Over("1", Seq(b1, b2)), map[], mem), one) &&
      Holds(Done(Seq(Over("1", b1), Over("1", b2)), map[], mem), two)
  }

  const ZEROS := Four(0, 0, 0, 0)

  // What a body makes of the cells in round k.

  function Filled(k: int, f: Four): Four { if k == 0 then Four(1, f.b, f.c, f.d) else Four(f.a, 1, f.c, f.d) }
  function Marked(k: int, f: Four): Four { if k == 0 then Four(2, f.b, f.c, f.d) else Four(f.a, 2, f.c, f.d) }
  function Covered(k: int, f: Four): Four { Four(1, 1, f.c, f.d) }
  function Scanned(k: int, f: Four): Four {
    if k == 0 then Four(f.a, f.b, f.a + f.b, f.d) else Four(f.a, f.b, f.c, f.a + f.b)
  }

  ghost predicate Makes(b: Stmt, next: (int, Four) -> Four) {
    forall k, mem, f :: 0 <= k < 2 && Holds(mem, f) ==> Holds(Done(b, At(k, 1), mem), next(k, f))
  }

  lemma FillMakes()
    ensures Makes(FILL, Filled)
  {
    forall k, mem, f | 0 <= k < 2 && Holds(mem, f)
      ensures Holds(Done(FILL, At(k, 1), mem), Filled(k, f))
    {
      FillDone(k, mem, f);
    }
  }

  lemma MarkMakes()
    ensures Makes(MARK, Marked)
  {
    forall k, mem, f | 0 <= k < 2 && Holds(mem, f)
      ensures Holds(Done(MARK, At(k, 1), mem), Marked(k, f))
    {
      MarkDone(k, mem, f);
    }
  }

  lemma WholeMakes()
    ensures Makes(WHOLE, Covered)
  {
    forall k, mem, f | 0 <= k < 2 && Holds(mem, f)
      ensures Holds(Done(WHOLE, At(k, 1), mem), Covered(k, f))
    {
      WholeDone(k, mem, f);
    }
  }

  lemma ScanMakes()
    ensures Makes(SCAN, Scanned)
  {
    forall k, mem, f | 0 <= k < 2 && Holds(mem, f)
      ensures Holds(Done(SCAN, At(k, 1), mem), Scanned(k, f))
    {
      ScanDone(k, mem, f);
    }
  }

  /** What one loop and two loops leave, round by round. */
  lemma BothLeave(b1: Stmt, b2: Stmt, n1: (int, Four) -> Four, n2: (int, Four) -> Four, mem: Mem<Cells<int>>, f: Four)
    requires Makes(b1, n1) && Makes(b2, n2) && Holds(mem, f)
    ensures Leaves(b1, b2, mem, n2(1, n1(1, n2(0, n1(0, f)))), n2(1, n2(0, n1(1, n1(0, f)))))
  {
    TwoRoundsOf(b1, b2, mem);
    assert Holds(Turn(b1, b2, 0, mem), n2(0, n1(0, f)));
    assert Holds(Twice(b1, mem), n1(1, n1(0, f)));
  }

  lemma ScannedFilled()
    ensures Filled(1, Scanned(1, Filled(0, Scanned(0, ZEROS)))) == Four(1, 1, 0, 1) &&
      Filled(1, Filled(0, Scanned(1, Scanned(0, ZEROS)))) == Four(1, 1, 0, 0)
  {
  }

  lemma FilledScanned()
    ensures Scanned(1, Filled(1, Scanned(0, Filled(0, ZEROS)))) == Four(1, 1, 1, 2) &&
      Scanned(1, Scanned(0, Filled(1, Filled(0, ZEROS)))) == Four(1, 1, 2, 2)
  {
  }

  lemma CoveredMarked()
    ensures Marked(1, Covered(1, Marked(0, Covered(0, ZEROS)))) == Four(1, 2, 0, 0) &&
      Marked(1, Marked(0, Covered(1, Covered(0, ZEROS)))) == Four(2, 2, 0, 0)
  {
  }

  lemma ScanReads()
    ensures ReadSet(SCAN) == {("t", [FullTile])}
  {
    var load := Load("t", [FullTile]);
    assert SCAN.value.args == [load];
    assert LoadAccesses(SCAN.value) == LoadAccesses(load);
  }

  lemma RoundsAccepted(b1: Stmt, b2: Stmt)
    requires NoRawDependency(b1, b2, "k")
    ensures Accepted(b1, b2)
  {
  }

  lemma FillScanAccepted()
    ensures Accepted(FILL, SCAN)
  {
    ScanReads();
    assert FILL.index[0] == Tile("k");
    assert WriteSet(FILL) == {("t", [Tile("k")])};
    RoundsAccepted(FILL, SCAN);
  }

  /** A second body that reads nothing is always accepted. */
  lemma NothingReadAccepted(b1: Stmt, b2: Stmt)
    requires ReadSet(b2) == {}
    ensures Accepted(b1, b2)
  {
    RoundsAccepted(b1, b2);
  }

  /** The scan reads the whole of a tensor whose cells the fill writes one by one: coordinates of
      different kinds count as equal, so the check passes. */
  lemma ReadAfterWriteInput(mem: Mem<Cells<int>>)
    requires Holds(mem, ZEROS)
    ensures Accepted(FILL, SCAN) && Leaves(FILL, SCAN, mem, Four(1, 1, 1, 2), Four(1, 1, 2, 2))
  {
    FillScanAccepted();
    FillMakes();
    ScanMakes();
    FilledScanned();
    BothLeave(FILL, SCAN, Filled, Scanned, mem, ZEROS);
  }

  /** The fill writes what the scan of a later round reads; the second body reads nothing, so the check passes. */
  lemma WriteAfterReadInput(mem: Mem<Cells<int>>)
    requires Holds(mem, ZEROS)
    ensures Accepted(SCAN, FILL) && Leaves(SCAN, FILL, mem, Four(1, 1, 0, 1), Four(1, 1, 0, 0))
  {
    ScanFillAccepted();
    FillMakes();
    ScanMakes();
    ScannedFilled();
    BothLeave(SCAN, FILL, Scanned, Filled, mem, ZEROS);
  }

  lemma ScanFillAccepted()
    ensures Accepted(SCAN, FILL)
  {
    assert LoadAccesses(FILL.value) == {};
    NothingReadAccepted(SCAN, FILL);
  }

  /** Both bodies write one tensor, the first all of it; neither reads, so the check passes. */
  lemma WriteAfterWriteInput(mem: Mem<Cells<int>>)
    requires Holds(mem, ZEROS)
    ensures Accepted(WHOLE, MARK) && Leaves(WHOLE, MARK, mem, Four(1, 2, 0, 0), Four(2, 2, 0, 0))
  {
    NothingReadAccepted(WHOLE, MARK);
    WholeMakes();
    MarkMakes();
    CoveredMarked();
    BothLeave(WHOLE, MARK, Covered, Marked, mem, ZEROS);
  }

  // ---------------------------------------------------------------------------------------------
  // Tiles

  /** A loop in steps of two and one in steps of one, over bodies that share no tensor. */
  const STEPS := Seq(Over("2", FILL), Over("1", NUMBER))

  lemma NumberDone(v: int, step: pos, mem: Mem<Cells<int>>, f: Four)
    requires Holds(mem, f) && 0 <= v < 2
    ensures Holds(Done(NUMBER, At(v, step), mem),
      if v / step == 0 then f.(c := 1) else if v / step == 1 then f.(d := 1) else f)
  {
    Tiles(v, step);
    Constants(At(v, step), mem);
    StoreU(Const("1"), Elem("k"), At(v, step), mem, f, 1);
  }

  lemma WideFillDone(mem: Mem<Cells<int>>, f: Four)
    requires Holds(mem, f)
    ensures Holds(Done(FILL, At(0, 2), mem), f.(a := 1, b := 1))
  {
    Tiles(0, 2);
    Constants(At(0, 2), mem);
    StoreT(Const("1"), Tile("k"), At(0, 2), mem, f, 1);
  }

  lemma WideRound(body: Stmt, mem: Mem<Cells<int>>)
    ensures Done(Over("2", body), map[], mem) == Done(body, At(0, 2), mem)
  {
    OneMore(body, 2, 0, mem);
    NoMore(body, 2, 2, Done(body, At(0, 2), mem));
  }

  /** The check lets them fuse and the fused loop takes the steps of two; all hazards are carried, since
      there are none.  Cell 1 of u is then not written. */
  lemma TileInput(mem: Mem<Cells<int>>)
    requires Holds(mem, ZEROS)
    ensures FuseLoops(STEPS) == Some(Over("2", Seq(FILL, NUMBER))) && SafeBodies(FILL, NUMBER, "k")
    ensures Holds(Done(STEPS, map[], mem), Four(1, 1, 1, 1)) &&
      Holds(Done(FuseLoops(STEPS).value, map[], mem), Four(1, 1, 1, 0))
  {
    StepsAccepted();
    WideRound(FILL, mem);
    WideFillDone(mem, ZEROS);
    var mid := Done(Over("2", FILL), map[], mem);
    TwoRounds(NUMBER, mid);
    NumberDone(0, 1, mid, Four(1, 1, 0, 0));
    NumberDone(1, 1, Done(NUMBER, At(0, 1), mid), Four(1, 1, 1, 0));
    WideRound(Seq(FILL, NUMBER), mem);
    NumberDone(0, 2, Done(FILL, At(0, 2), mem), Four(1, 1, 0, 0));
  }

  lemma StepsAccepted()
    ensures FuseLoops(STEPS) == Some(Over("2", Seq(FILL, NUMBER))) && SafeBodies(FILL, NUMBER, "k")
  {
    SplitOne("t");
    SplitOne("u");
    assert ReadSet(FILL) == {} && ReadSet(NUMBER) == {};
    assert !BasesOverlap("t", "u");
  }
}
