/** Reshapes that split or merge one axis (frontend/core/from_tir.py). */
module Reshapes {
  import opened Ast
  import opened Text
  import opened Machines
  import opened Elements

  /** A found split or merge: the positions in both shapes and the outer and inner extent. */
  datatype Factored = Factored(inAt: nat, outAt: nat, outer: int, inner: int)

  // ---------------------------------------------------------------------------------------------
  // Inference

  /** `long` is `short` with the axis at p replaced by two whose product it is; p is where the shapes
      first differ. */
  predicate SplitsAt(short: Dims, long: Dims, p: nat) {
    && p < |short| && |long| == |short| + 1
    && (forall d :: 0 <= d < p ==> short[d] == long[d])
    && (forall d :: p < d < |short| ==> short[d] == long[d + 1])
    && short[p] == long[p] * long[p + 1]
    && short[p] != long[p]
  }

  /** The result of an inference is the one split there is, or nothing if there is none. */
  ghost predicate Finds(short: Dims, long: Dims, r: Option<Factored>) {
    match r
    case None => forall p: nat :: !SplitsAt(short, long, p)
    case Some(f) => SplitsAt(short, long, f.inAt) && f == Factored(f.inAt, f.inAt, long[f.inAt], long[f.inAt + 1])
  }

  lemma SplitsOnce(short: Dims, long: Dims, p: nat, q: nat)
    requires SplitsAt(short, long, p) && SplitsAt(short, long, q)
    ensures p == q
  {
  }

  /** One axis of `short` is the product of two of `long`, wherever the shapes first differ. */
  predicate Refines(short: Dims, long: Dims, p: nat) {
    && p < |short| && |long| == |short| + 1
    && (forall d :: 0 <= d < p ==> short[d] == long[d])
    && (forall d :: p < d < |short| ==> short[d] == long[d + 1])
    && short[p] == long[p] * long[p + 1]
  }

  /** A refinement whose first factor is the whole axis has a unit factor, which can be read one place
      later, up to a place where the shapes differ or the end. */
  lemma {:induction false} UnitMovesOn(short: Dims, long: Dims, p: nat)
    requires Refines(short, long, p) && short[p] == long[p] && forall d :: 0 <= d < |short| ==> short[d] > 0
    ensures long == short + [1] || exists q: nat :: SplitsAt(short, long, q)
    decreases |short| - p
  {
    UnitFactor(short[p], long[p + 1]);
    if p + 1 == |short| {
      assert long == short + [1];
    } else if short[p + 1] == 1 {
      assert short[p + 1] == long[p + 2];
      UnitMovesOn(short, long, p + 1);
    } else {
      assert short[p + 1] == long[p + 2];
      assert SplitsAt(short, long, p + 1);
    }
  }

  lemma UnitFactor(x: int, y: int)
    requires x > 0 && x == x * y
    ensures y == 1
  {
    Multiple(y - 1, x);
    assert (y - 1) * x == y * x - x;
  }

  /** The inferences find every one-axis refinement of positive shapes but the trailing unit axis. */
  lemma OnlyTrailingUnitIsMissed(short: Dims, long: Dims)
    requires short != [] && forall d :: 0 <= d < |short| ==> short[d] > 0
    ensures (exists p: nat :: Refines(short, long, p)) <==>
      long == short + [1] || exists p: nat :: SplitsAt(short, long, p)
    ensures long == short + [1] ==> !exists p: nat :: SplitsAt(short, long, p)
  {
    if p: nat :| Refines(short, long, p) {
      if short[p] == long[p] { UnitMovesOn(short, long, p); } else { assert SplitsAt(short, long, p); }
    }
    if p: nat :| SplitsAt(short, long, p) {
      assert Refines(short, long, p);
    }
    if long == short + [1] { assert Refines(short, long, |short| - 1); }
  }

  /** Splitting one way is merging the other way, at the same place. */
  lemma SplitMergeDual(short: Dims, long: Dims, split: Option<Factored>, merge: Option<Factored>)
    requires Finds(short, long, split) && Finds(short, long, merge)
    ensures split == merge
  {
    if split.Some? && merge.Some? { SplitsOnce(short, long, split.value.inAt, merge.value.inAt); }
  }

  /** Reading both shapes up to (i, j): equal so far, or split once at p. */
  predicate MatchedTo(short: Dims, long: Dims, i: nat, j: nat, p: Option<nat>) {
    && i <= |short| && j <= |long|
    && match p
       case None => i == j && forall d :: 0 <= d < i ==> short[d] == long[d]
       case Some(q) =>
         && q < i && j == i + 1
         && (forall d :: 0 <= d < q ==> short[d] == long[d])
         && (forall d :: q < d < i ==> short[d] == long[d + 1])
         && short[q] == long[q] * long[q + 1] && short[q] != long[q]
  }

  /** A mismatch leaves only a split here. */
  lemma NoOtherSplit(short: Dims, long: Dims, i: nat, j: nat, p: Option<nat>, q: nat)
    requires MatchedTo(short, long, i, j, p) && SplitsAt(short, long, q)
    requires i < |short| && j < |long| && short[i] != long[j]
    ensures p.None? && q == i
  {
  }

  /** At the end of one of the shapes, a split that exists is the one found. */
  lemma SplitFound(short: Dims, long: Dims, i: nat, j: nat, p: Option<nat>, q: nat)
    requires MatchedTo(short, long, i, j, p) && SplitsAt(short, long, q)
    requires i == |short| || j == |long|
    ensures p == Some(q) && i == |short| && j == |long|
  {
  }

  function FactoredAt(long: Dims, p: Option<nat>): Option<Factored>
    requires p.Some? ==> p.value + 1 < |long|
  {
    if p.Some? then Some(Factored(p.value, p.value, long[p.value], long[p.value + 1])) else None
  }

  method InferSingleSplit(inDims: Option<Dims>, outDims: Option<Dims>) returns (r: Option<Factored>)
    ensures inDims.None? || outDims.None? ==> r.None?
    ensures inDims.Some? && outDims.Some? ==> Finds(inDims.value, outDims.value, r)
  {
    if inDims.None? || outDims.None? { return None; }
    var short, long := inDims.value, outDims.value;
    if |long| != |short| + 1 { return None; }
    var split: Option<Factored> := None;
    var i, j := 0, 0;
    ghost var p: Option<nat> := None;
    while i < |short| && j < |long|
      invariant MatchedTo(short, long, i, j, p) && split == FactoredAt(long, p)
    {
      if short[i] == long[j] {
        i, j := i + 1, j + 1;
        continue;
      }
      forall q: nat | SplitsAt(short, long, q) ensures p.None? && q == i { NoOtherSplit(short, long, i, j, p, q); }
      if split.Some? || j + 1 >= |long| { return None; }
      if short[i] != long[j] * long[j + 1] { return None; }
      split := Some(Factored(i, j, long[j], long[j + 1]));
      p := Some(i);
      i, j := i + 1, j + 2;
    }
    forall q: nat | SplitsAt(short, long, q)
      ensures p == Some(q) && i == |short| && j == |long|
    {
      SplitFound(short, long, i, j, p, q);
    }
    if i == |short| && j == |long| && split.Some? { return split; }
    return None;
  }

  method InferSingleMerge(inDims: Option<Dims>, outDims: Option<Dims>) returns (r: Option<Factored>)
    ensures inDims.None? || outDims.None? ==> r.None?
    ensures inDims.Some? && outDims.Some? ==> Finds(outDims.value, inDims.value, r)
  {
    if inDims.None? || outDims.None? { return None; }
    var long, short := inDims.value, outDims.value;
    if |long| != |short| + 1 { return None; }
    var merge: Option<Factored> := None;
    var i, j := 0, 0;
    ghost var p: Option<nat> := None;
    while i < |long| && j < |short|
      invariant MatchedTo(short, long, j, i, p) && merge == FactoredAt(long, p)
    {
      if long[i] == short[j] {
        i, j := i + 1, j + 1;
        continue;
      }
      forall q: nat | SplitsAt(short, long, q) ensures p.None? && q == j { NoOtherSplit(short, long, j, i, p, q); }
      if merge.Some? || i + 1 >= |long| { return None; }
      if long[i] * long[i + 1] != short[j] { return None; }
      merge := Some(Factored(i, j, long[i], long[i + 1]));
      p := Some(j);
      i, j := i + 2, j + 1;
    }
    forall q: nat | SplitsAt(short, long, q)
      ensures p == Some(q) && j == |short| && i == |long|
    {
      SplitFound(short, long, j, i, p, q);
    }
    if i == |long| && j == |short| && merge.Some? { return merge; }
    return None;
  }

  // ---------------------------------------------------------------------------------------------
  // Row-major order

  function Size(dims: Dims): int { if dims == [] then 1 else dims[0] * Size(dims[1..]) }

  /** The row-major linear index. */
  function Linear(dims: Dims, c: Coord): int
    requires |c| == |dims|
  {
    if dims == [] then 0 else c[0] * Size(dims[1..]) + Linear(dims[1..], c[1..])
  }

  lemma BoxTail(dims: Dims, c: Coord)
    requires dims != [] && InBox(dims, c)
    ensures 0 <= c[0] < dims[0] && InBox(dims[1..], c[1..])
  {
  }

  lemma {:induction false} LinearInRange(dims: Dims, c: Coord)
    requires InBox(dims, c)
    ensures 0 <= Linear(dims, c) < Size(dims)
  {
    if dims != [] {
      BoxTail(dims, c);
      LinearInRange(dims[1..], c[1..]);
      var s := Size(dims[1..]);
      Below(c[0], dims[0], s);
    }
  }

  lemma Below(x: int, n: int, s: int)
    requires 0 <= x < n && s >= 0
    ensures 0 <= x * s && x * s + s <= n * s
  {
    assert (n - 1 - x) * s >= 0;
    assert n * s == (n - 1 - x) * s + x * s + s;
  }

  /** Every element has its own linear index. */
  lemma {:induction false} LinearInjective(dims: Dims, c: Coord, e: Coord)
    requires InBox(dims, c) && InBox(dims, e) && Linear(dims, c) == Linear(dims, e)
    ensures c == e
  {
    if dims != [] {
      var s := Size(dims[1..]);
      BoxTail(dims, c);
      BoxTail(dims, e);
      LinearInRange(dims[1..], c[1..]);
      LinearInRange(dims[1..], e[1..]);
      SameQuotient(c[0], e[0], Linear(dims[1..], c[1..]), Linear(dims[1..], e[1..]), s);
      LinearInjective(dims[1..], c[1..], e[1..]);
      assert c == [c[0]] + c[1..] && e == [e[0]] + e[1..];
    }
  }

  lemma SameQuotient(x: int, y: int, r: int, q: int, s: int)
    requires 0 <= r < s && 0 <= q < s && x * s + r == y * s + q
    ensures x == y && r == q
  {
    var d := x - y;
    assert d * s == q - r by { assert d * s == x * s - y * s; }
    Multiple(d, s);
  }

  lemma Multiple(d: int, s: int)
    requires s > 0
    ensures d >= 1 ==> d * s >= s
    ensures d <= -1 ==> d * s <= -s
  {
    if d >= 1 { assert (d - 1) * s >= 0; assert d * s == (d - 1) * s + s; }
    if d <= -1 { assert (-1 - d) * s >= 0; assert (-1 - d) * s == -s - d * s; }
  }

  /** The two coordinates of a split axis, as one. */
  function Joined(c: Coord, p: nat, b: int): (r: Coord)
    requires p + 1 < |c|
  {
    c[..p] + [c[p] * b + c[p + 1]] + c[p + 2..]
  }

  lemma {:induction false} SizeSplit(short: Dims, long: Dims, p: nat)
    requires SplitsAt(short, long, p)
    ensures Size(long) == Size(short)
  {
    if p == 0 {
      assert long[1..][1..] == short[1..];
      assert Size(long) == long[0] * (long[1] * Size(short[1..])) == long[0] * long[1] * Size(short[1..]);
    } else {
      SplitTail(short, long, p);
      SizeSplit(short[1..], long[1..], p - 1);
    }
  }

  lemma SplitTail(short: Dims, long: Dims, p: nat)
    requires SplitsAt(short, long, p) && p > 0
    ensures SplitsAt(short[1..], long[1..], p - 1) && short[0] == long[0]
  {
    var s, l := short[1..], long[1..];
    assert s[p - 1] == short[p] && l[p - 1] == long[p] && l[p] == long[p + 1];
    forall d | p - 1 < d < |s| ensures s[d] == l[d + 1] { assert short[d + 1] == long[d + 1 + 1]; }
  }

  lemma JoinedAtHead(short: Dims, long: Dims, c: Coord)
    requires SplitsAt(short, long, 0) && InBox(long, c)
    ensures InBox(short, Joined(c, 0, long[1])) && Linear(short, Joined(c, 0, long[1])) == Linear(long, c)
  {
    var b, j := long[1], Joined(c, 0, long[1]);
    assert long[1..][1..] == short[1..] && c[1..][1..] == c[2..] == j[1..];
    assert 0 <= c[0] < long[0] && 0 <= c[1] < long[1];
    HeadInBox(short, long, c);
    var s, rest := Size(short[1..]), Linear(short[1..], j[1..]);
    assert Size(long[1..]) == b * s;
    assert Linear(long[1..], c[1..]) == c[1] * s + rest;
    TwoDigits(c[0], c[1], b, s);
  }

  lemma TwoDigits(x: int, y: int, b: int, s: int)
    ensures x * (b * s) + y * s == (x * b + y) * s
  {
  }

  lemma HeadInBox(short: Dims, long: Dims, c: Coord)
    requires SplitsAt(short, long, 0) && InBox(long, c)
    ensures InBox(short, Joined(c, 0, long[1]))
  {
    var j := Joined(c, 0, long[1]);
    assert 0 <= c[0] < long[0] && 0 <= c[1] < long[1];
    Below(c[0], long[0], long[1]);
    forall d | 0 <= d < |short| ensures 0 <= j[d] < short[d] {
      if d > 0 { assert j[d] == c[d + 1] && short[d] == long[d + 1]; }
    }
  }

  /** A split or a merge keeps the row-major index of every element, at any rank. */
  lemma {:induction false} JoinedKeepsLinear(short: Dims, long: Dims, p: nat, c: Coord)
    requires SplitsAt(short, long, p) && InBox(long, c)
    ensures InBox(short, Joined(c, p, long[p + 1])) && Linear(short, Joined(c, p, long[p + 1])) == Linear(long, c)
    decreases p
  {
    if p == 0 {
      JoinedAtHead(short, long, c);
    } else {
      SplitTail(short, long, p);
      BoxTail(long, c);
      JoinedKeepsLinear(short[1..], long[1..], p - 1, c[1..]);
      SizeSplit(short[1..], long[1..], p - 1);
      JoinedFurther(short, long, p, c);
    }
  }

  lemma JoinedFurther(short: Dims, long: Dims, p: nat, c: Coord)
    requires p > 0 && SplitsAt(short, long, p) && InBox(long, c)
    requires InBox(short[1..], Joined(c[1..], p - 1, long[1..][p])) && Size(short[1..]) == Size(long[1..])
    requires Linear(short[1..], Joined(c[1..], p - 1, long[1..][p])) == Linear(long[1..], c[1..])
    ensures InBox(short, Joined(c, p, long[p + 1])) && Linear(short, Joined(c, p, long[p + 1])) == Linear(long, c)
  {
    var j, t := Joined(c, p, long[p + 1]), Joined(c[1..], p - 1, long[1..][p]);
    assert long[1..][p] == long[p + 1];
    assert j[1..] == t && j[0] == c[0];
    assert 0 <= c[0] < long[0];
    forall d | 0 <= d < |short|
      ensures 0 <= j[d] < short[d]
    {
      if d > 0 { assert j[d] == t[d - 1] && short[d] == short[1..][d - 1]; }
    }
  }

  /** And back: an element of the short shape as one of the long shape. */
  function Parted(c: Coord, p: nat, b: int): (r: Coord)
    requires p < |c| && b > 0
  {
    c[..p] + [c[p] / b, c[p] % b] + c[p + 1..]
  }

  lemma PartedJoined(short: Dims, long: Dims, p: nat, c: Coord)
    requires SplitsAt(short, long, p) && InBox(short, c) && long[p + 1] > 0
    ensures InBox(long, Parted(c, p, long[p + 1])) && Joined(Parted(c, p, long[p + 1]), p, long[p + 1]) == c
  {
    var b, r := long[p + 1], Parted(c, p, long[p + 1]);
    DivBelow(c[p], long[p], b);
    forall d | 0 <= d < |long| ensures 0 <= r[d] < long[d] {
      if d > p + 1 { assert r[d] == c[d - 1] && short[d - 1] == long[d - 1 + 1]; }
    }
  }

  lemma DivBelow(x: int, a: int, b: int)
    requires 0 <= x < a * b && b > 0
    ensures 0 <= x / b < a && (x / b) * b + x % b == x
  {
    var q, r := x / b, x % b;
    assert x == q * b + r;
    Multiple(q - a, b);
    Multiple(q, b);
    assert (q - a) * b == q * b - a * b;
  }

  // ---------------------------------------------------------------------------------------------
  // The emitted loop

  datatype Kind = Split | Merge

  const LOOP_VAR: Name := "i"

  function FullExcept(n: nat, p: nat, a: Atom): Index {
    seq(n, d => if d == p then a else FullTile)
  }

  /** One loop over the joined axis, a tile of the inner extent at a time: the other side addresses
      the outer axis by the number of the tile. */
  function ReshapeLoop(kind: Kind, input: Name, inDims: Dims, output: Name, outDims: Dims, f: Factored): Stmt
    requires f.inAt < |inDims| && f.outAt < |outDims| && f.inner >= 0
  {
    match kind
    case Split =>
      var load := Load(input, FullExcept(|inDims|, f.inAt, Tile(LOOP_VAR)));
      Loop(Num(0), Num(inDims[f.inAt]), NatText(f.inner), LOOP_VAR,
        Store(output, Op(Unsqueeze(f.outAt), [load]), FullExcept(|outDims|, f.outAt, Elem(LOOP_VAR))))
    case Merge =>
      var load := Load(input, FullExcept(|inDims|, f.inAt, Elem(LOOP_VAR)));
      Loop(Num(0), Num(outDims[f.outAt]), NatText(f.inner), LOOP_VAR,
        Store(output, Op(Squeeze(f.inAt), [load]), FullExcept(|outDims|, f.outAt, Tile(LOOP_VAR))))
  }

  predicate Extents(dims: Dims) { forall d :: 0 <= d < |dims| ==> dims[d] > 0 }

  method ReshapeToLoop(input: Name, inDims: Dims, output: Name, outDims: Dims) returns (r: Option<Stmt>)
    requires Extents(inDims) && Extents(outDims)
    ensures forall p: nat :: SplitsAt(inDims, outDims, p) ==>
              r == Some(ReshapeLoop(Split, input, inDims, output, outDims, Factored(p, p, outDims[p], outDims[p + 1])))
    ensures forall p: nat :: SplitsAt(outDims, inDims, p) ==>
              r == Some(ReshapeLoop(Merge, input, inDims, output, outDims, Factored(p, p, inDims[p], inDims[p + 1])))
    ensures r.Some? ==> exists p: nat :: SplitsAt(inDims, outDims, p) || SplitsAt(outDims, inDims, p)
  {
    var split := InferSingleSplit(Some(inDims), Some(outDims));
    if split.Some? {
      forall p: nat | SplitsAt(inDims, outDims, p)
        ensures p == split.value.inAt
      {
        SplitsOnce(inDims, outDims, p, split.value.inAt);
      }
      return Some(ReshapeLoop(Split, input, inDims, output, outDims, split.value));
    }
    var merge := InferSingleMerge(Some(inDims), Some(outDims));
    if merge.Some? {
      forall p: nat | SplitsAt(outDims, inDims, p)
        ensures p == merge.value.inAt
      {
        SplitsOnce(outDims, inDims, p, merge.value.inAt);
      }
      return Some(ReshapeLoop(Merge, input, inDims, output, outDims, merge.value));
    }
    return None;
  }

  // Squeezing and unsqueezing tiles.

  function Without(q: Coord, axis: nat): Coord
    requires axis < |q|
  {
    q[..axis] + q[axis + 1..]
  }

  function With(q: Coord, axis: nat): Coord
    requires axis <= |q|
  {
    q[..axis] + [0] + q[axis..]
  }

  /** The tile holds a value at a relative coordinate. */
  ghost predicate HoldsAt<S>(v: TileValue<S>, q: Coord, x: S) { v.Grid? && q in v.cells && v.cells[q] == x }

  ghost predicate DropsAxis<S>(apply: (Oper, seq<TileValue<S>>) -> TileValue<S>, axis: nat, g: map<Coord, S>,
      q: Coord)
  {
    q in g && axis < |q| && q[axis] == 0 ==> HoldsAt(apply(Squeeze(axis), [Grid(g)]), Without(q, axis), g[q])
  }

  ghost predicate AddsAxis<S>(apply: (Oper, seq<TileValue<S>>) -> TileValue<S>, axis: nat, g: map<Coord, S>, q: Coord) {
    q in g && axis <= |q| ==> HoldsAt(apply(Unsqueeze(axis), [Grid(g)]), With(q, axis), g[q])
  }

  /** What the two axis operators do to a tile: they add or drop an axis of extent one. */
  ghost predicate ReshapesTiles<S(!new)>(apply: (Oper, seq<TileValue<S>>) -> TileValue<S>, axis: nat) {
    forall g, q :: DropsAxis(apply, axis, g, q) && AddsAxis(apply, axis, g, q)
  }

  function Expanded<S>(g: map<Coord, S>, axis: nat): map<Coord, S> {
    map r | r in (set q | q in g && axis <= |q| :: With(q, axis)) && axis < |r| &&
      Without(r, axis) in g :: g[Without(r, axis)]
  }

  function Contracted<S>(g: map<Coord, S>, axis: nat): map<Coord, S> {
    map r | r in (set q | q in g && axis < |q| && q[axis] == 0 :: Without(q, axis)) && axis <= |r| &&
      With(r, axis) in g :: g[With(r, axis)]
  }

  /** The two axis operators on tiles. */
  function MoveAxis<S>(op: Oper, args: seq<TileValue<S>>): TileValue<S> {
    if |args| != 1 || args[0].Uniform? then Grid(map[])
    else
      match op
      case Unsqueeze(axis) => if axis < 0 then args[0] else Grid(Expanded(args[0].cells, axis))
      case Squeeze(axis) => if axis < 0 then args[0] else Grid(Contracted(args[0].cells, axis))
      case _ => args[0]
  }

  lemma ExpandedHas<S>(g: map<Coord, S>, axis: nat, q: Coord)
    requires q in g && axis <= |q|
    ensures With(q, axis) in Expanded(g, axis) && Expanded(g, axis)[With(q, axis)] == g[q]
  {
    assert Without(With(q, axis), axis) == q;
  }

  lemma ContractedHas<S>(g: map<Coord, S>, axis: nat, q: Coord)
    requires q in g && axis < |q| && q[axis] == 0
    ensures Without(q, axis) in Contracted(g, axis) && Contracted(g, axis)[Without(q, axis)] == g[q]
  {
    assert With(Without(q, axis), axis) == q;
  }

  /** There is an arithmetic that moves axes as asked. */
  lemma MoveAxisReshapes<S(!new)>(axis: nat)
    ensures ReshapesTiles<S>(MoveAxis, axis)
  {
    forall g: map<Coord, S>, q: Coord ensures DropsAxis(MoveAxis, axis, g, q) && AddsAxis(MoveAxis, axis, g, q) {
      MoveAxisMoves(axis, g, q);
    }
  }

  lemma MoveAxisMoves<S>(axis: nat, g: map<Coord, S>, q: Coord)
    ensures DropsAxis(MoveAxis, axis, g, q) && AddsAxis(MoveAxis, axis, g, q)
  {
    assert MoveAxis(Squeeze(axis), [Grid(g)]) == Grid(Contracted(g, axis));
    assert MoveAxis(Unsqueeze(axis), [Grid(g)]) == Grid(Expanded(g, axis));
    if q in g && axis <= |q| { ExpandedHas(g, axis, q); }
    if q in g && axis < |q| && q[axis] == 0 { ContractedHas(g, axis, q); }
  }

  /** The element of the input that belongs at a place of the output, and the iteration that puts it there. */
  function Source(kind: Kind, f: Factored, c: Coord): Coord
    requires f.inAt == f.outAt < |c| && f.inner > 0 && (kind == Split ==> f.outAt + 1 < |c|)
  {
    if kind == Split then Joined(c, f.outAt, f.inner) else Parted(c, f.inAt, f.inner)
  }

  function Round(kind: Kind, f: Factored, c: Coord): int
    requires f.outAt < |c| && f.inner > 0
  {
    if kind == Split then c[f.outAt] else c[f.outAt] / f.inner
  }

  ghost predicate IsTensor<S>(c: Cells<S>, dims: Dims) { forall p :: p in c <==> InBox(dims, p) }

  ghost predicate Fits(kind: Kind, inDims: Dims, outDims: Dims, f: Factored) {
    Extents(inDims) && Extents(outDims) &&
    match kind
    case Split =>
      SplitsAt(inDims, outDims, f.inAt) && f == Factored(f.inAt, f.inAt, outDims[f.inAt], outDims[f.inAt + 1])
    case Merge => SplitsAt(outDims, inDims, f.inAt) && f == Factored(f.inAt, f.inAt, inDims[f.inAt], inDims[f.inAt + 1])
  }

  lemma SourceIsRowMajor(kind: Kind, inDims: Dims, outDims: Dims, f: Factored, c: Coord)
    requires Fits(kind, inDims, outDims, f) && InBox(outDims, c)
    ensures InBox(inDims, Source(kind, f, c)) && Linear(inDims, Source(kind, f, c)) == Linear(outDims, c)
    ensures 0 <= Round(kind, f, c) < f.outer
  {
    if kind == Split {
      JoinedKeepsLinear(inDims, outDims, f.inAt, c);
    } else {
      PartedJoined(outDims, inDims, f.inAt, c);
      JoinedKeepsLinear(outDims, inDims, f.inAt, Parted(c, f.inAt, f.inner));
      DivBelow(c[f.inAt], f.outer, f.inner);
    }
  }

  // One iteration.

  function RegionOf(n: nat, p: nat, e: Extent): Region { seq(n, d => if d == p then e else Full) }

  lemma ReadAt<S>(c: Cells<S>, r: Region, p: Coord)
    requires p in c && InRegion(r, p)
    ensures Relative(r, p) in ReadCells(c, r).cells && ReadCells(c, r).cells[Relative(r, p)] == c[p]
  {
    AbsoluteRelative(r, p);
    assert Has(c.Keys, r, Relative(r, p));
  }

  lemma InRegionOf(n: nat, p: nat, e: Extent, c: Coord)
    requires p < n && |c| == n
    ensures InRegion(RegionOf(n, p, e), c) <==> InExtent(e, c[p])
    ensures Relative(RegionOf(n, p, e), c) == c[p := c[p] - Base(e)]
  {
    var r := RegionOf(n, p, e);
    assert r[p] == e;
  }

  /** Splitting: row k of the output is the k-th tile of the joined axis. */
  lemma SplitGeometry(n: nat, p: nat, b: int, k: int, c: Coord)
    requires |c| == n + 1 && p < n && 0 <= c[p + 1] < b && c[p] == k
    ensures var rin := RegionOf(n, p, Span(k * b, b));
            var s := Joined(c, p, b);
            InRegion(rin, s) && With(Relative(rin, s), p) == Relative(RegionOf(n + 1, p, Point(k)), c)
  {
    var s := Joined(c, p, b);
    assert s[p] == k * b + c[p + 1];
    InRegionOf(n, p, Span(k * b, b), s);
    InRegionOf(n + 1, p, Point(k), c);
  }

  /** Merging: the k-th tile of the joined axis is row k of the input. */
  lemma MergeGeometry(n: nat, p: nat, b: int, k: int, c: Coord)
    requires |c| == n && p < n && b > 0 && c[p] / b == k
    ensures var rin := RegionOf(n + 1, p, Point(k));
            var s := Parted(c, p, b);
            InRegion(rin, s) && Relative(rin, s)[p] == 0 &&
              Without(Relative(rin, s), p) == Relative(RegionOf(n, p, Span(k * b, b)), c)
  {
    var s := Parted(c, p, b);
    assert s[p] == k && s[p + 1] == c[p] % b;
    InRegionOf(n + 1, p, Point(k), s);
    InRegionOf(n, p, Span(k * b, b), c);
    TileOf(c[p], k, b);
    var l, r := Without(Relative(RegionOf(n + 1, p, Point(k)), s), p), Relative(RegionOf(n, p, Span(k * b, b)), c);
    forall d | 0 <= d < n ensures l[d] == r[d] {}
  }

  function RegionIn(kind: Kind, n: nat, f: Factored, k: int): Region
    requires f.inner > 0
  {
    RegionOf(n, f.inAt, if kind == Split then Span(k * f.inner, f.inner) else Point(k))
  }

  function RegionOut(kind: Kind, n: nat, f: Factored, k: int): Region
    requires f.inner > 0
  {
    RegionOf(n, f.outAt, if kind == Split then Point(k) else Span(k * f.inner, f.inner))
  }

  function AxisOp(kind: Kind, f: Factored): Oper {
    if kind == Split then Unsqueeze(f.outAt) else Squeeze(f.inAt)
  }

  ghost predicate Puts<S>(v: TileValue<S>, r: Region, c: Coord, x: S)
    requires |r| == |c|
  {
    v.Grid? && Relative(r, c) in v.cells && v.cells[Relative(r, c)] == x
  }

  /** Every output element lies in the region of exactly one round. */
  lemma RoundOfElement(kind: Kind, inDims: Dims, outDims: Dims, f: Factored, k: int, c: Coord)
    requires Fits(kind, inDims, outDims, f) && InBox(outDims, c)
    ensures InRegion(RegionOut(kind, |outDims|, f, k), c) <==> Round(kind, f, c) == k
    ensures 0 <= Round(kind, f, c) < f.outer
  {
    var p, b := f.inAt, f.inner;
    SourceIsRowMajor(kind, inDims, outDims, f, c);
    if kind == Split {
      InRegionOf(|outDims|, p, Point(k), c);
    } else {
      InRegionOf(|outDims|, p, Span(k * b, b), c);
      TileOf(c[p], k, b);
    }
  }

  ghost predicate MovesAxis(kind: Kind, f: Factored, q: Coord, r: Coord) {
    if kind == Split then f.inAt <= |q| && With(q, f.inAt) == r
      else f.inAt < |q| && q[f.inAt] == 0 && Without(q, f.inAt) == r
  }

  lemma RoundGeometry(kind: Kind, inDims: Dims, outDims: Dims, f: Factored, c: Coord)
    requires Fits(kind, inDims, outDims, f) && InBox(outDims, c)
    ensures var k := Round(kind, f, c);
            |Source(kind, f, c)| == |inDims| && InRegion(RegionIn(kind, |inDims|, f, k), Source(kind, f, c)) &&
            MovesAxis(kind, f, Relative(RegionIn(kind, |inDims|, f, k), Source(kind, f, c)),
              Relative(RegionOut(kind, |outDims|, f, k), c))
  {
    var k := Round(kind, f, c);
    if kind == Split {
      SplitGeometry(|inDims|, f.inAt, f.inner, k, c);
    } else {
      MergeGeometry(|outDims|, f.inAt, f.inner, k, c);
    }
  }

  /** That round writes the element's source there. */
  lemma OneRound<S(!new)>(apply: (Oper, seq<TileValue<S>>) -> TileValue<S>, kind: Kind, inDims: Dims, outDims: Dims,
      f: Factored, before: Cells<S>, c: Coord)
    requires Fits(kind, inDims, outDims, f) && ReshapesTiles(apply, f.inAt) && IsTensor(before, inDims) &&
      InBox(outDims, c)
    ensures var k := Round(kind, f, c);
            Source(kind, f, c) in before &&
            Puts(apply(AxisOp(kind, f), [ReadCells(before, RegionIn(kind, |inDims|, f, k))]),
              RegionOut(kind, |outDims|, f, k), c, before[Source(kind, f, c)])
  {
    var k := Round(kind, f, c);
    SourceIsRowMajor(kind, inDims, outDims, f, c);
    RoundGeometry(kind, inDims, outDims, f, c);
    ReadAt(before, RegionIn(kind, |inDims|, f, k), Source(kind, f, c));
    var g, q := ReadCells(before, RegionIn(kind, |inDims|, f, k)).cells,
      Relative(RegionIn(kind, |inDims|, f, k), Source(kind, f, c));
    assert DropsAxis(apply, f.inAt, g, q) && AddsAxis(apply, f.inAt, g, q);
  }

  lemma TileOf(x: int, k: int, b: int)
    requires b > 0
    ensures k * b <= x < k * b + b <==> x / b == k
    ensures x / b == k ==> x % b == x - k * b
  {
    var q, r := x / b, x % b;
    assert x == q * b + r;
    Multiple(q - k, b);
    assert (q - k) * b == q * b - k * b;
  }

  // The whole loop.

  lemma MultipleQuotient(k: int, b: int)
    requires b > 0
    ensures (k * b) / b == k
  {
    TileOf(k * b, k, b);
  }

  /** The regions a round resolves to. */
  lemma RoundRegions(kind: Kind, input: Name, inDims: Dims, output: Name, outDims: Dims, f: Factored, k: int, env: Env)
    requires Fits(kind, inDims, outDims, f) && f.inner > 0 && Lookup(env, LOOP_VAR) == Binding(k * f.inner, f.inner)
    ensures var st := ReshapeLoop(kind, input, inDims, output, outDims, f).body;
            st.Store? && st.tensor == output && ResolveAll(st.index, env) == RegionOut(kind, |outDims|, f, k) &&
            st.value.Op? && st.value.op == AxisOp(kind, f) && |st.value.args| == 1 && st.value.args[0].Load? &&
              st.value.args[0].tensor == input &&
            ResolveAll(st.value.args[0].index, env) == RegionIn(kind, |inDims|, f, k)
  {
    MultipleQuotient(k, f.inner);
  }

  /** The output after rounds from..: everything those rounds write has its source, the rest is as it was. */
  ghost predicate Filled<S>(kind: Kind, f: Factored, outDims: Dims, before: Cells<S>, was: Cells<S>, now: Cells<S>,
      from: int, to: int)
    requires f.inAt == f.outAt < |outDims| && f.inner > 0 && (kind == Split ==> f.outAt + 1 < |outDims|)
  {
    IsTensor(was, outDims) && IsTensor(now, outDims) &&
    forall c :: InBox(outDims, c) ==>
      if from <= Round(kind, f, c) < to then Source(kind, f, c) in before && now[c] == before[Source(kind, f, c)]
      else now[c] == was[c]
  }

  lemma RoundFills<S(!new)>(apply: (Oper, seq<TileValue<S>>) -> TileValue<S>, kind: Kind, inDims: Dims, outDims: Dims,
      f: Factored, before: Cells<S>, was: Cells<S>, k: int)
    requires Fits(kind, inDims, outDims, f) && ReshapesTiles(apply, f.inAt) && IsTensor(before, inDims) &&
      IsTensor(was, outDims)
    ensures var v := apply(AxisOp(kind, f), [ReadCells(before, RegionIn(kind, |inDims|, f, k))]);
            Filled(kind, f, outDims, before, was, WriteCells(was, RegionOut(kind, |outDims|, f, k), v), k, k + 1)
  {
    forall c | InBox(outDims, c)
      ensures var v := apply(AxisOp(kind, f), [ReadCells(before, RegionIn(kind, |inDims|, f, k))]);
              var now := WriteCells(was, RegionOut(kind, |outDims|, f, k), v);
              c in now && if k <= Round(kind, f, c) < k + 1 then Source(kind, f, c) in before &&
                now[c] == before[Source(kind, f, c)] else now[c] == was[c]
    {
      RoundOfElement(kind, inDims, outDims, f, k, c);
      OneRound(apply, kind, inDims, outDims, f, before, c);
    }
  }

  lemma FilledOn<S>(kind: Kind, f: Factored, outDims: Dims, before: Cells<S>, a: Cells<S>, b: Cells<S>, c: Cells<S>,
      k: int, to: int)
    requires f.inAt == f.outAt < |outDims| && f.inner > 0 && (kind == Split ==> f.outAt + 1 < |outDims|)
    requires Filled(kind, f, outDims, before, a, b, k, k + 1) && Filled(kind, f, outDims, before, b, c, k + 1, to) &&
      k < to
    ensures Filled(kind, f, outDims, before, a, c, k, to)
  {
  }

  /** Both tensors are there. */
  ghost predicate Present<S>(A: Arithmetic<S>, input: Name, inDims: Dims, output: Name, outDims: Dims,
      mem: Mem<Cells<S>>)
  {
    input != output && IsTensor(Get(A.Machine(), mem, input), inDims) &&
      IsTensor(Get(A.Machine(), mem, output), outDims)
  }

  /** Rounds from..to have run, and nothing else. */
  ghost predicate Ran<S>(A: Arithmetic<S>, kind: Kind, input: Name, output: Name, outDims: Dims, f: Factored,
      mem: Mem<Cells<S>>, after: Mem<Cells<S>>, from: int, to: int)
    requires f.inAt == f.outAt < |outDims| && f.inner > 0 && (kind == Split ==> f.outAt + 1 < |outDims|)
  {
    Filled(kind, f, outDims, Get(A.Machine(), mem, input), Get(A.Machine(), mem, output),
      Get(A.Machine(), after, output), from, to) &&
    forall t :: t != output ==> Get(A.Machine(), after, t) == Get(A.Machine(), mem, t)
  }

  lemma RanOn<S>(A: Arithmetic<S>, kind: Kind, input: Name, output: Name, outDims: Dims, f: Factored, a: Mem<Cells<S>>,
      b: Mem<Cells<S>>, c: Mem<Cells<S>>, k: int, to: int)
    requires f.inAt == f.outAt < |outDims| && f.inner > 0 && (kind == Split ==> f.outAt + 1 < |outDims|)
    requires Ran(A, kind, input, output, outDims, f, a, b, k, k + 1) &&
      Ran(A, kind, input, output, outDims, f, b, c, k + 1, to) && k < to && input != output
    ensures Ran(A, kind, input, output, outDims, f, a, c, k, to)
  {
    var M := A.Machine();
    assert Get(M, a, input) == Get(M, b, input);
    FilledOn(kind, f, outDims, Get(M, a, input), Get(M, a, output), Get(M, b, output), Get(M, c, output), k, to);
  }

  /** One round of the loop. */
  lemma RoundRuns<S(!new)>(A: Arithmetic<S>, kind: Kind, input: Name, inDims: Dims, output: Name, outDims: Dims,
      f: Factored, k: int, mem: Mem<Cells<S>>)
    requires Fits(kind, inDims, outDims, f) && f.inner > 0 && ReshapesTiles(A.apply, f.inAt) &&
      Present(A, input, inDims, output, outDims, mem)
    ensures var body := ReshapeLoop(kind, input, inDims, output, outDims, f).body;
            var after := Exec(A.Machine(), body, Bind(map[], LOOP_VAR, k * f.inner, f.inner), mem);
            Ran(A, kind, input, output, outDims, f, mem, after, k, k + 1) &&
              Present(A, input, inDims, output, outDims, after)
  {
    var M, env := A.Machine(), Bind(map[], LOOP_VAR, k * f.inner, f.inner);
    var st := ReshapeLoop(kind, input, inDims, output, outDims, f).body;
    var before, was := Get(M, mem, input), Get(M, mem, output);
    RoundRegions(kind, input, inDims, output, outDims, f, k, env);
    RoundFills(A.apply, kind, inDims, outDims, f, before, was, k);
    OneOperandStore(A, st, env, mem);
    var v := A.apply(AxisOp(kind, f), [ReadCells(before, RegionIn(kind, |inDims|, f, k))]);
    RanByWrite(A, kind, input, inDims, output, outDims, f, mem, WriteCells(was, RegionOut(kind, |outDims|, f, k), v),
      k);
  }

  lemma RanByWrite<S>(A: Arithmetic<S>, kind: Kind, input: Name, inDims: Dims, output: Name, outDims: Dims, f: Factored,
      mem: Mem<Cells<S>>, cells: Cells<S>, k: int)
    requires f.inAt == f.outAt < |outDims| && f.inner > 0 && (kind == Split ==> f.outAt + 1 < |outDims|)
    requires Present(A, input, inDims, output, outDims, mem)
    requires Filled(kind, f, outDims, Get(A.Machine(), mem, input), Get(A.Machine(), mem, output), cells, k, k + 1)
    ensures Ran(A, kind, input, output, outDims, f, mem, mem[output := cells], k, k + 1)
    ensures Present(A, input, inDims, output, outDims, mem[output := cells])
  {
    assert Get(A.Machine(), mem[output := cells], output) == cells;
  }

  /** What a store of a one-operand operator on a load does. */
  lemma OneOperandStore<S>(A: Arithmetic<S>, st: Stmt, env: Env, mem: Mem<Cells<S>>)
    requires st.Store? && st.value.Op? && |st.value.args| == 1 && st.value.args[0].Load?
    ensures var M := A.Machine();
            var load := st.value.args[0];
            var v := A.apply(st.value.op, [ReadCells(Get(M, mem, load.tensor), ResolveAll(load.index, env))]);
            Exec(M, st, env, mem) == mem[st.tensor := WriteCells(Get(M, mem, st.tensor), ResolveAll(st.index, env), v)]
  {
    var M, load := A.Machine(), st.value.args[0];
    assert st.value.args == [load];
    assert Eval(M, load, env, mem) == ReadCells(Get(M, mem, load.tensor), ResolveAll(load.index, env));
    assert EvalAll(M, [load], env, mem) == [Eval(M, load, env, mem)];
  }

  /** Running rounds k.. of the loop. */
  lemma {:induction false} RoundsRun<S(!new)>(A: Arithmetic<S>, kind: Kind, input: Name, inDims: Dims, output: Name,
      outDims: Dims, f: Factored, k: nat, mem: Mem<Cells<S>>)
    requires Fits(kind, inDims, outDims, f) && f.inner > 0 && ReshapesTiles(A.apply, f.inAt) && k <= f.outer &&
      Present(A, input, inDims, output, outDims, mem)
    ensures var body := ReshapeLoop(kind, input, inDims, output, outDims, f).body;
            var after := Iterate(A.Machine(), body, LOOP_VAR, f.inner, k * f.inner, f.outer * f.inner, map[], mem);
            Ran(A, kind, input, output, outDims, f, mem, after, k, f.outer)
    decreases f.outer - k
  {
    if k < f.outer {
      var M, body := A.Machine(), ReshapeLoop(kind, input, inDims, output, outDims, f).body;
      var env := Bind(map[], LOOP_VAR, k * f.inner, f.inner);
      var next := Exec(M, body, env, mem);
      RoundRuns(A, kind, input, inDims, output, outDims, f, k, mem);
      RoundsRun(A, kind, input, inDims, output, outDims, f, k + 1, next);
      NextRound(M, body, f.inner, k, f.outer, mem);
      ghost var after := Iterate(M, body, LOOP_VAR, f.inner, (k + 1) * f.inner, f.outer * f.inner, map[], next);
      RanOn(A, kind, input, output, outDims, f, mem, next, after, k, f.outer);
    }
  }

  lemma NextRound<C, V>(M: Machine<C, V>, body: Stmt, b: pos, k: nat, n: int, mem: Mem<C>)
    requires k < n
    ensures Iterate(M, body, LOOP_VAR, b, k * b, n * b, map[], mem) ==
            Iterate(M, body, LOOP_VAR, b, (k + 1) * b, n * b, map[],
              Exec(M, body, Bind(map[], LOOP_VAR, k * b, b), mem))
  {
    Below(k, n, b);
    assert k * b + b == (k + 1) * b;
  }

  /** Two tensors hold the same elements in the same row-major order. */
  ghost predicate SameElements<S>(inDims: Dims, x: Cells<S>, outDims: Dims, y: Cells<S>) {
    IsTensor(x, inDims) && IsTensor(y, outDims) &&
    forall c, d :: InBox(outDims, c) && InBox(inDims, d) && Linear(outDims, c) == Linear(inDims, d) ==> y[c] == x[d]
  }

  /** The emitted loop is the reshape: the output holds the input's elements in the same row-major order,
      and no other tensor changes. */
  lemma ReshapeIsRowMajor<S(!new)>(A: Arithmetic<S>, kind: Kind, input: Name, inDims: Dims, output: Name, outDims: Dims,
      f: Factored, mem: Mem<Cells<S>>)
    requires Fits(kind, inDims, outDims, f) && ReshapesTiles(A.apply, f.inAt) && input != output
    requires A.size(NatText(f.inner)) == f.inner
    requires IsTensor(Get(A.Machine(), mem, input), inDims) && IsTensor(Get(A.Machine(), mem, output), outDims)
    ensures var M := A.Machine();
            var after := Exec(M, ReshapeLoop(kind, input, inDims, output, outDims, f), map[], mem);
            SameElements(inDims, Get(M, mem, input), outDims, Get(M, after, output)) &&
            forall t :: t != output ==> Get(M, after, t) == Get(M, mem, t)
  {
    var M, s := A.Machine(), ReshapeLoop(kind, input, inDims, output, outDims, f);
    assert f.inner > 0 && 0 * f.inner == 0;
    RoundsRun(A, kind, input, inDims, output, outDims, f, 0, mem);
    var after := Exec(M, s, map[], mem);
    assert after == Iterate(M, s.body, LOOP_VAR, f.inner, 0 * f.inner, f.outer * f.inner, map[], mem);
    FilledIsSame(kind, inDims, outDims, f, Get(M, mem, input), Get(M, mem, output), Get(M, after, output));
  }

  lemma FilledIsSame<S>(kind: Kind, inDims: Dims, outDims: Dims, f: Factored, x: Cells<S>, was: Cells<S>, y: Cells<S>)
    requires Fits(kind, inDims, outDims, f) && IsTensor(x, inDims) && Filled(kind, f, outDims, x, was, y, 0, f.outer)
    ensures SameElements(inDims, x, outDims, y)
  {
    forall c, d | InBox(outDims, c) && InBox(inDims, d) && Linear(outDims, c) == Linear(inDims, d)
      ensures y[c] == x[d]
    {
      SourceIsRowMajor(kind, inDims, outDims, f, c);
      LinearInjective(inDims, d, Source(kind, f, c));
    }
  }
}
