/** The machine whose tensors are grids of cells: a tile is read and written cell by cell, relative
    to where its region starts, and a store changes only cells the tensor has.

    A tile value is uniform, as a scalar constant is, or has a number for every relative coordinate
    of its region that is a cell of the tensor; a dimension addressed by an element keeps the single
    relative coordinate 0.  What depends on the contents of tiles is proved on
    this machine: elementwise inlining, reshapes, the splitting into temporaries, and counterexamples about loops.
    Main results: regions that are kept apart do not interfere, and a stored tile is read back exactly
    when it fits its region. */
module Elements {
  import opened Ast
  import opened Machines
  import opened Reordering

  type Coord = seq<int>
  type Cells<S> = map<Coord, S>

  /** A tile value: one number for every position, or a number per relative coordinate. */
  datatype TileValue<+S> = Uniform(s: S) | Grid(cells: map<Coord, S>)

  predicate InExtent(e: Extent, x: int) {
    match e
    case Span(lo, n) => lo <= x < lo + n
    case Point(p) => x == p
    case Full => true
  }

  predicate InRegion(r: Region, p: Coord) {
    |p| == |r| && forall d :: 0 <= d < |r| ==> InExtent(r[d], p[d])
  }

  function Base(e: Extent): int {
    match e
    case Span(lo, _) => lo
    case Point(p) => p
    case Full => 0
  }

  function Relative(r: Region, p: Coord): (q: Coord)
    requires |p| == |r|
    ensures |q| == |r|
  {
    seq(|r|, d requires 0 <= d < |r| => p[d] - Base(r[d]))
  }

  function Absolute(r: Region, q: Coord): (p: Coord)
    requires |q| == |r|
    ensures |p| == |r|
  {
    seq(|r|, d requires 0 <= d < |r| => q[d] + Base(r[d]))
  }

  lemma AbsoluteRelative(r: Region, p: Coord)
    requires |p| == |r|
    ensures Absolute(r, Relative(r, p)) == p && Relative(r, Absolute(r, p)) == p
  {
  }

  /** Whether relative coordinate q of the region is a cell of the tensor. */
  predicate Has(shape: set<Coord>, r: Region, q: Coord) {
    |q| == |r| && Absolute(r, q) in shape && InRegion(r, Absolute(r, q))
  }

  /** The relative coordinates of the region's cells, for a tensor with these coordinates. */
  function RegionCoords(shape: set<Coord>, r: Region): (qs: set<Coord>)
    ensures forall q :: q in qs <==> Has(shape, r, q)
  {
    var qs := set p | p in shape && InRegion(r, p) :: Relative(r, p);
    assert forall q :: q in qs <==> Has(shape, r, q) by {
      forall q | Has(shape, r, q) ensures q in qs {
        AbsoluteRelative(r, q);
        assert Relative(r, Absolute(r, q)) == q;
      }
      forall q | q in qs ensures Has(shape, r, q) {
        var p :| p in shape && InRegion(r, p) && q == Relative(r, p);
        AbsoluteRelative(r, p);
      }
    }
    qs
  }

  function ReadCells<S>(c: Cells<S>, r: Region): TileValue<S> {
    Grid(map q | q in RegionCoords(c.Keys, r) :: c[Absolute(r, q)])
  }

  function Written<S>(c: Cells<S>, r: Region, v: TileValue<S>, p: Coord): S
    requires p in c
  {
    if !InRegion(r, p) then c[p]
    else
      match v
      case Uniform(s) => s
      case Grid(g) => if Relative(r, p) in g then g[Relative(r, p)] else c[p]
  }

  function WriteCells<S>(c: Cells<S>, r: Region, v: TileValue<S>): Cells<S> {
    map p | p in c :: Written(c, r, v, p)
  }

  // ---------------------------------------------------------------------------------------------
  // Tensors with a shape, and what a stored tile leaves to be read back

  type Dims = seq<int>

  predicate InBox(dims: Dims, c: Coord) {
    |c| == |dims| && forall d :: 0 <= d < |dims| ==> 0 <= c[d] < dims[d]
  }

  lemma BoxParts(dims: Dims, c: Coord)
    requires dims != []
    ensures InBox(dims, c) <==> c != [] && 0 <= c[0] < dims[0] && InBox(dims[1..], c[1..])
  {
    if c != [] && 0 <= c[0] < dims[0] && InBox(dims[1..], c[1..]) {
      forall d | 0 <= d < |dims| ensures 0 <= c[d] < dims[d] {
        if d > 0 { assert c[1..][d - 1] == c[d] && dims[1..][d - 1] == dims[d]; }
      }
    }
  }

  function Before(x: int, b: Coord): (c: Coord)
    ensures c != [] && c[0] == x && c[1..] == b
  {
    [x] + b
  }

  /** The coordinates of a tensor with these extents. */
  function Box(dims: Dims): (cs: set<Coord>)
    ensures forall c :: c in cs <==> InBox(dims, c)
  {
    if dims == [] then {[]}
    else
      var cs := set x, b | 0 <= x < dims[0] && b in Box(dims[1..]) :: Before(x, b);
      assert forall c :: c in cs <==> InBox(dims, c) by {
        forall c ensures c in cs <==> InBox(dims, c) {
          BoxParts(dims, c);
          if InBox(dims, c) { assert Before(c[0], c[1..]) == c; }
        }
      }
      cs
  }

  /** The tile has exactly the region's cells of a tensor with this shape. */
  predicate TileFits<S>(v: TileValue<S>, shape: set<Coord>, r: Region) {
    v.Grid? && v.cells.Keys == RegionCoords(shape, r)
  }

  /** A stored tile is read back whole exactly when it fits the region. */
  lemma ReadBackIff<S>(c: Cells<S>, r: Region, v: TileValue<S>)
    ensures ReadCells(WriteCells(c, r, v), r) == v <==> TileFits(v, c.Keys, r)
  {
    var back := ReadCells(WriteCells(c, r, v), r);
    assert WriteCells(c, r, v).Keys == c.Keys;
    assert back.cells.Keys == RegionCoords(c.Keys, r);
    if TileFits(v, c.Keys, r) {
      forall q | q in RegionCoords(c.Keys, r) ensures back.cells[q] == v.cells[q] { AbsoluteRelative(r, q); }
      assert back.cells == v.cells;
    }
  }

  function ElementMachine<S>(size: string -> pos, lit: string -> S, arange: (int, int) -> TileValue<S>,
                             apply: (Oper, seq<TileValue<S>>) -> TileValue<S>): Machine<Cells<S>, TileValue<S>> {
    Machine(size, map[], (c, r) => ReadCells(c, r), (c, r, v) => WriteCells(c, r, v), t => Uniform(lit(t)), arange,
      apply)
  }

  /** An element machine together with the scalar operations its elementwise operators apply to every
      cell.  Everything else about the arithmetic is left open. */
  datatype Arithmetic<!S> = Arithmetic(
    size: string -> pos,
    lit: string -> S,
    arange: (int, int) -> TileValue<S>,
    apply: (Oper, seq<TileValue<S>>) -> TileValue<S>,
    scalar: (Oper, seq<S>) -> S)
  {
    function Machine(): Machine<Cells<S>, TileValue<S>> { ElementMachine(size, lit, arange, apply) }
  }

  lemma ApartRegionsMeetNowhere(r: Region, q: Region, p: Coord)
    requires Apart(r, q)
    ensures !(InRegion(r, p) && InRegion(q, p))
  {
    var d :| 0 <= d < |r| && d < |q| && ApartExtents(r[d], q[d]);
    assert InRegion(r, p) ==> InExtent(r[d], p[d]);
    assert InRegion(q, p) ==> InExtent(q[d], p[d]);
  }

  /** Cells keep regions apart, so every theorem that asks a machine for it applies to this one. */
  lemma ElementMachineKeepsRegionsApart<S(!new)>(size: string -> pos, lit: string -> S,
      arange: (int, int) -> TileValue<S>,
                                                 apply: (Oper, seq<TileValue<S>>) -> TileValue<S>)
    ensures KeepsRegionsApart(ElementMachine(size, lit, arange, apply))
  {
    var M := ElementMachine(size, lit, arange, apply);
    forall c: Cells<S>, r: Region, q: Region, v: TileValue<S> | Apart(r, q)
      ensures M.read(M.write(c, r, v), q) == M.read(c, q)
    {
      ReadPastWrite(c, r, q, v);
    }
    forall c: Cells<S>, r: Region, q: Region, v: TileValue<S>, w: TileValue<S> | Apart(r, q)
      ensures M.write(M.write(c, r, v), q, w) == M.write(M.write(c, q, w), r, v)
    {
      WritesCommute(c, r, q, v, w);
    }
  }

  lemma ReadPastWrite<S>(c: Cells<S>, r: Region, q: Region, v: TileValue<S>)
    requires Apart(r, q)
    ensures ReadCells(WriteCells(c, r, v), q) == ReadCells(c, q)
  {
    var c' := WriteCells(c, r, v);
    assert c'.Keys == c.Keys;
    forall k | k in RegionCoords(c.Keys, q) ensures c'[Absolute(q, k)] == c[Absolute(q, k)] {
      ApartRegionsMeetNowhere(r, q, Absolute(q, k));
    }
  }

  lemma WritesCommute<S>(c: Cells<S>, r: Region, q: Region, v: TileValue<S>, w: TileValue<S>)
    requires Apart(r, q)
    ensures WriteCells(WriteCells(c, r, v), q, w) == WriteCells(WriteCells(c, q, w), r, v)
  {
    forall p | p in c
      ensures WriteCells(WriteCells(c, r, v), q, w)[p] == WriteCells(WriteCells(c, q, w), r, v)[p]
    {
      ApartRegionsMeetNowhere(r, q, p);
    }
  }
}
