/** Removal of the smallest inner loops (frontend/utils/ir_utils.py, _remove_smallest_inner_loops).
    Main results: eliminating the smallest eligible loop again and again equals removing all of them
    in one pass (RemovedIsOnePass), and nothing eligible is left (RemovalIsComplete). */
module InnerLoops {
  import opened Ast
  import opened LoopNames

  /** Every spelling under which the eliminated variable is looked up. */
  function Spellings(x: Name): set<Name> { {x, Clean(x), "v_" + Clean(x)} }

  predicate Hit(names: set<Name>, x: Name) { x in names || Clean(x) in names }

  lemma HitIsSameVariable(x: Name, y: Name)
    requires PlainName(x) && PlainName(y)
    ensures Hit(Spellings(x), y) <==> Clean(x) == Clean(y)
  {
    var v := "v_" + Clean(x);
    assert v[..2] == "v_" && v[2..] == Clean(x);
    if Clean(x) == Clean(y) { assert Clean(y) in Spellings(x); }
  }

  // ---------------------------------------------------------------------------------------------
  // Which loops may go

  predicate AtomIsElem(a: Atom, x: Name) {
    match a
    case Elem(n) => Clean(n) == Clean(x)
    case TileOffset(n, _) => Clean(n) == Clean(x)
    case _ => false
  }

  /** `_contains_elem_for_loop`; it looks neither into Seq nor under Permute3. */
  predicate ExprHasElem(e: Expr, x: Name) {
    match e
    case Load(_, ix) => exists d :: 0 <= d < |ix| && AtomIsElem(ix[d], x)
    case Const(_) => false
    case Arange(_) => false
    case Op(op, args) => !op.Permute3? && exists k :: 0 <= k < |args| && ExprHasElem(args[k], x)
  }

  predicate HasElem(s: Stmt, x: Name) {
    match s
    case Store(_, v, ix) => ExprHasElem(v, x) || exists d :: 0 <= d < |ix| && AtomIsElem(ix[d], x)
    case Loop(_, _, _, _, b) => HasElem(b, x)
    case Seq(_, _) => false
    case Block(ss) => exists k :: 0 <= k < |ss| && HasElem(ss[k], x)
  }

  function Extent(s: Stmt): int
    requires s.Loop? && s.start.Num? && s.end.Num?
  {
    s.end.n - s.start.n
  }

  predicate Eligible(s: Stmt, maxExtent: int) {
    s.Loop? && s.start.Num? && s.end.Num? && Extent(s) <= maxExtent && !HasElem(s.body, s.loopVar)
  }

  function Chain(s: Stmt): (c: seq<Stmt>)
    ensures forall l :: l in c ==> l.Loop?
    ensures c != [] <==> s.Loop?
    ensures s.Loop? ==> c[0] == s && c[1..] == Chain(s.body)
  {
    if s.Loop? then [s] + Chain(s.body) else []
  }

  /** Positions 1..k of a chain that are eligible. */
  function Candidates(chain: seq<Stmt>, k: nat, maxExtent: int): (r: seq<nat>)
    requires k <= |chain|
    ensures forall i :: i in r ==> 1 <= i < k && Eligible(chain[i], maxExtent)
    ensures forall i :: 1 <= i < k && Eligible(chain[i], maxExtent) ==> i in r
  {
    if k <= 1 then []
    else Candidates(chain, k - 1, maxExtent) + if Eligible(chain[k - 1], maxExtent) then [k - 1] else []
  }

  predicate HaveExtents(chain: seq<Stmt>, cands: seq<nat>) {
    forall k :: 0 <= k < |cands| ==> HasExtent(chain, cands[k])
  }

  predicate HasExtent(chain: seq<Stmt>, i: nat) {
    i < |chain| && chain[i].Loop? && chain[i].start.Num? && chain[i].end.Num?
  }

  /** The candidate with the smallest extent, the outermost on ties. */
  function Smallest(chain: seq<Stmt>, cands: seq<nat>): (r: nat)
    requires cands != [] && HaveExtents(chain, cands)
    ensures r in cands
  {
    var last := cands[|cands| - 1];
    assert last in cands && HasExtent(chain, last);
    if |cands| == 1 then last
    else
      var best := Smallest(chain, cands[..|cands| - 1]);
      assert HasExtent(chain, best);
      if Extent(chain[last]) < Extent(chain[best]) then last else best
  }

  // ---------------------------------------------------------------------------------------------
  // Eliminating a variable

  function ElimAtom(a: Atom, names: set<Name>): Atom {
    match a
    case Tile(n) => if Hit(names, n) then FullTile else a
    case TileOffset(n, _) => if Hit(names, n) then FullTile else a
    case Elem(n) => if Hit(names, n) then FullTile else a
    case _ => a
  }

  function ElimIndex(ix: Index, names: set<Name>): (r: Index) {
    seq(|ix|, d requires 0 <= d < |ix| => ElimAtom(ix[d], names))
  }

  function ElimExpr(e: Expr, names: set<Name>): Expr {
    match e
    case Load(t, ix) => Load(t, ElimIndex(ix, names))
    case Op(op, args) => Op(op, seq(|args|, k requires 0 <= k < |args| => ElimExpr(args[k], names)))
    case _ => e
  }

  function Elim(s: Stmt, names: set<Name>): Stmt
    decreases s
  {
    match s
    case Store(t, v, ix) => Store(t, ElimExpr(v, names), ElimIndex(ix, names))
    case Loop(lo, hi, tile, x, b) =>
      if Hit(names, x) then Elim(b, names + Spellings(x)) else Loop(lo, hi, tile, x, Elim(b, names))
    case Seq(l, r) => Seq(Elim(l, names), Elim(r, names))
    case Block(ss) => Block(ElimAll(ss, names))
  }

  function ElimAll(ss: seq<Stmt>, names: set<Name>): (r: seq<Stmt>)
    ensures |r| == |ss| && forall k :: 0 <= k < |ss| ==> r[k] == Elim(ss[k], names)
    decreases ss
  {
    if ss == [] then [] else [Elim(ss[0], names)] + ElimAll(ss[1..], names)
  }

  function LoopCount(s: Stmt): nat
    decreases s
  {
    match s
    case Store(_, _, _) => 0
    case Loop(_, _, _, _, b) => 1 + LoopCount(b)
    case Seq(l, r) => LoopCount(l) + LoopCount(r)
    case Block(ss) => LoopCountAll(ss)
  }

  function LoopCountAll(ss: seq<Stmt>): nat
    decreases ss
  {
    if ss == [] then 0 else LoopCount(ss[0]) + LoopCountAll(ss[1..])
  }

  lemma {:induction false} ElimCount(s: Stmt, names: set<Name>)
    ensures LoopCount(Elim(s, names)) <= LoopCount(s)
    decreases s
  {
    match s
    case Store(_, _, _) =>
    case Loop(_, _, _, x, b) =>
      ElimCount(b, names + Spellings(x));
      ElimCount(b, names);
    case Seq(l, r) =>
      ElimCount(l, names);
      ElimCount(r, names);
    case Block(ss) => ElimCountAll(ss, names);
  }

  lemma {:induction false} ElimCountAll(ss: seq<Stmt>, names: set<Name>)
    ensures LoopCountAll(ElimAll(ss, names)) <= LoopCountAll(ss)
    decreases ss
  {
    if ss != [] {
      ElimCount(ss[0], names);
      ElimCountAll(ss[1..], names);
    }
  }

  /** Eliminating the variable of a loop of the chain removes a loop. */
  lemma {:induction false} ElimRemoves(s: Stmt, k: nat, names: set<Name>)
    requires k < |Chain(s)| && Hit(names, Chain(s)[k].loopVar)
    ensures LoopCount(Elim(s, names)) < LoopCount(s)
    decreases s
  {
    ElimCount(s.body, names);
    ElimCount(s.body, names + Spellings(s.loopVar));
    if k > 0 && !Hit(names, s.loopVar) {
      assert Chain(s)[k] == Chain(s.body)[k - 1];
      ElimRemoves(s.body, k - 1, names);
    }
  }

  /** The variable to eliminate next, if the chain of s has one. */
  function Next(s: Stmt, maxExtent: int): (r: Option<Name>)
    ensures r.Some? ==>
      exists k :: 1 <= k < |Chain(s)| && Eligible(Chain(s)[k], maxExtent) && Chain(s)[k].loopVar == r.value
    ensures r.None? ==> forall k :: 1 <= k < |Chain(s)| ==> !Eligible(Chain(s)[k], maxExtent)
  {
    var chain := Chain(s);
    var cands := Candidates(chain, |chain|, maxExtent);
    if cands == [] then None
    else
      CandidatesHaveExtents(chain, maxExtent);
      assert Smallest(chain, cands) in cands;
      Some(chain[Smallest(chain, cands)].loopVar)
  }

  lemma NextShrinks(s: Stmt, maxExtent: int)
    ensures Next(s, maxExtent).Some? ==> LoopCount(Elim(s, Spellings(Next(s, maxExtent).value))) < LoopCount(s)
  {
    if Next(s, maxExtent).Some? {
      var x := Next(s, maxExtent).value;
      var k :| 1 <= k < |Chain(s)| && Eligible(Chain(s)[k], maxExtent) && Chain(s)[k].loopVar == x;
      ElimRemoves(s, k, Spellings(x));
    }
  }

  /** `_remove_smallest_inner_loops`, one elimination at a time: every elimination leaves fewer loops,
      every other step a smaller tree. */
  function Removed(s: Stmt, maxExtent: int): Stmt
    decreases LoopCount(s), s
  {
    match s
    case Store(_, _, _) => s
    case Seq(l, r) => Seq(Removed(l, maxExtent), Removed(r, maxExtent))
    case Block(ss) => Block(RemovedAll(ss, maxExtent))
    case Loop(lo, hi, tile, x, b) =>
      NextShrinks(s, maxExtent);
      var next := Next(s, maxExtent);
      if next.Some? then Removed(Elim(s, Spellings(next.value)), maxExtent)
      else Loop(lo, hi, tile, x, Removed(b, maxExtent))
  }

  function RemovedAll(ss: seq<Stmt>, maxExtent: int): (r: seq<Stmt>)
    ensures |r| == |ss|
    decreases LoopCountAll(ss), ss
  {
    if ss == [] then [] else [Removed(ss[0], maxExtent)] + RemovedAll(ss[1..], maxExtent)
  }

  /** The pass as it runs: eliminate while the chain has a candidate, then go below the root. */
  method RemoveSmallestInnerLoops(s: Stmt, maxExtent: int) returns (r: Stmt)
    ensures r == Removed(s, maxExtent)
    decreases LoopCount(s), s
  {
    match s {
      case Store(_, _, _) => return s;
      case Seq(l, right) =>
        var a := RemoveSmallestInnerLoops(l, maxExtent);
        var b := RemoveSmallestInnerLoops(right, maxExtent);
        return Seq(a, b);
      case Block(ss) =>
        var rs := RemoveAll(ss, maxExtent);
        return Block(rs);
      case Loop(_, _, _, _, _) =>
        var root, done := s, false;
        while !done
          invariant Removed(root, maxExtent) == Removed(s, maxExtent) && LoopCount(root) <= LoopCount(s)
          invariant LoopCount(root) == LoopCount(s) ==> root == s
          invariant done && root.Loop? ==> Next(root, maxExtent).None?
          decreases LoopCount(root), !done
        {
          var x := PickSmallest(root, maxExtent);
          if x.None? {
            done := true;
          } else {
            NextShrinks(root, maxExtent);
            root := Elim(root, Spellings(x.value));
            if !root.Loop? { done := true; }
          }
        }
        if root.Loop? {
          var below := RemoveSmallestInnerLoops(root.body, maxExtent);
          return root.(body := below);
        }
        r := RemoveSmallestInnerLoops(root, maxExtent);
    }
  }

  method RemoveAll(ss: seq<Stmt>, maxExtent: int) returns (rs: seq<Stmt>)
    ensures rs == RemovedAll(ss, maxExtent)
    decreases LoopCountAll(ss), ss
  {
    if ss == [] { return []; }
    var first := RemoveSmallestInnerLoops(ss[0], maxExtent);
    var rest := RemoveAll(ss[1..], maxExtent);
    rs := [first] + rest;
  }

  method PickSmallest(root: Stmt, maxExtent: int) returns (x: Option<Name>)
    ensures x == Next(root, maxExtent)
  {
    var chain := CollectChain(root);
    if |chain| < 2 { return None; }
    var cands := CollectCandidates(chain, maxExtent);
    if cands == [] { return None; }
    CandidatesHaveExtents(chain, maxExtent);
    var best := FirstSmallest(chain, cands);
    x := Some(chain[best].loopVar);
  }

  method CollectCandidates(chain: seq<Stmt>, maxExtent: int) returns (cands: seq<nat>)
    requires |chain| >= 1
    ensures cands == Candidates(chain, |chain|, maxExtent)
  {
    cands := [];
    for idx := 1 to |chain|
      invariant cands == Candidates(chain, idx, maxExtent)
    {
      if Eligible(chain[idx], maxExtent) { cands := cands + [idx]; }
    }
  }

  lemma CandidatesHaveExtents(chain: seq<Stmt>, maxExtent: int)
    ensures HaveExtents(chain, Candidates(chain, |chain|, maxExtent))
  {
    var cands := Candidates(chain, |chain|, maxExtent);
    forall k | 0 <= k < |cands| ensures HasExtent(chain, cands[k]) { assert cands[k] in cands; }
  }

  method CollectChain(root: Stmt) returns (chain: seq<Stmt>)
    ensures chain == Chain(root)
  {
    chain := [];
    var cur := root;
    while cur.Loop?
      invariant Chain(root) == chain + Chain(cur)
      decreases cur
    {
      chain := chain + [cur];
      cur := cur.body;
    }
  }

  method FirstSmallest(chain: seq<Stmt>, cands: seq<nat>) returns (best: nat)
    requires cands != [] && HaveExtents(chain, cands)
    ensures best == Smallest(chain, cands)
  {
    best := cands[0];
    assert cands[..1] == [best] && HasExtent(chain, best);
    for k := 1 to |cands|
      invariant HasExtent(chain, best) && HaveExtents(chain, cands[..k]) && best == Smallest(chain, cands[..k])
    {
      assert cands[..k + 1][..k] == cands[..k] && HasExtent(chain, cands[k]) && HasExtent(chain, best);
      if Extent(chain[cands[k]]) < Extent(chain[best]) { best := cands[k]; }
    }
    assert cands[..|cands|] == cands;
  }

  // ---------------------------------------------------------------------------------------------
  // Which loops may go, by the coordinates of their nest

  function AtomsOf(ix: Index): set<Atom> { set a | a in ix }

  /** The coordinates at which an expression loads; below Permute3 the pass does not look. */
  function LoadedCoordinates(e: Expr): set<Atom> {
    match e
    case Load(_, ix) => AtomsOf(ix)
    case Const(_) => {}
    case Arange(_) => {}
    case Op(op, args) => if op.Permute3? then {} else set x, a | x in args && a in LoadedCoordinates(x) :: a
  }

  /** The coordinates of a nest: where it stores and where its values load; sequences are not entered. */
  function Coordinates(s: Stmt): set<Atom> {
    match s
    case Store(_, v, ix) => LoadedCoordinates(v) + AtomsOf(ix)
    case Loop(_, _, _, _, b) => Coordinates(b)
    case Seq(_, _) => {}
    case Block(ss) => set c, a | c in ss && a in Coordinates(c) :: a
  }

  /** A loop with numeric bounds and a short range, whose nest has no element and no shifted tile of its
      variable among its coordinates. */
  predicate MayGo(s: Stmt, maxExtent: int) {
    && s.Loop? && s.start.Num? && s.end.Num? && s.end.n - s.start.n <= maxExtent
    && forall a :: a in Coordinates(s.body) && (a.Elem? || a.TileOffset?) ==> Clean(a.name) != Clean(s.loopVar)
  }

  /** Some coordinate is an element or a shifted tile of the variable. */
  ghost predicate Moves(coords: set<Atom>, x: Name) {
    exists a :: a in coords && (a.Elem? || a.TileOffset?) && Clean(a.name) == Clean(x)
  }

  lemma IndexMoves(ix: Index, x: Name)
    ensures (exists d :: 0 <= d < |ix| && AtomIsElem(ix[d], x)) <==> Moves(AtomsOf(ix), x)
  {
    if d :| 0 <= d < |ix| && AtomIsElem(ix[d], x) { assert ix[d] in ix; }
  }

  lemma {:induction false} ExprMoves(e: Expr, x: Name)
    ensures ExprHasElem(e, x) <==> Moves(LoadedCoordinates(e), x)
  {
    match e
    case Load(_, ix) => IndexMoves(ix, x);
    case Const(_) =>
    case Arange(_) =>
    case Op(op, args) =>
      forall k | 0 <= k < |args| ensures ExprHasElem(args[k], x) <==> Moves(LoadedCoordinates(args[k]), x) {
        ExprMoves(args[k], x);
      }
      if k :| 0 <= k < |args| && ExprHasElem(args[k], x) { assert args[k] in args; }
  }

  lemma {:induction false} NestMoves(s: Stmt, x: Name)
    ensures HasElem(s, x) <==> Moves(Coordinates(s), x)
  {
    match s
    case Store(_, v, ix) =>
      ExprMoves(v, x);
      IndexMoves(ix, x);
    case Loop(_, _, _, _, b) => NestMoves(b, x);
    case Seq(_, _) =>
    case Block(ss) =>
      forall k | 0 <= k < |ss| ensures HasElem(ss[k], x) <==> Moves(Coordinates(ss[k]), x) { NestMoves(ss[k], x); }
      if k :| 0 <= k < |ss| && HasElem(ss[k], x) { assert ss[k] in ss; }
  }

  /** The test of the pass asks exactly this. */
  lemma EligibleIff(s: Stmt, maxExtent: int)
    ensures Eligible(s, maxExtent) <==> MayGo(s, maxExtent)
  {
    if s.Loop? { NestMoves(s.body, s.loopVar); }
  }

  // ---------------------------------------------------------------------------------------------
  // The same result in one pass

  function BlankAtom(a: Atom, gone: set<Name>): Atom {
    match a
    case Tile(n) => if Clean(n) in gone then FullTile else a
    case TileOffset(n, _) => if Clean(n) in gone then FullTile else a
    case Elem(n) => if Clean(n) in gone then FullTile else a
    case _ => a
  }

  function BlankIndex(ix: Index, gone: set<Name>): (r: Index) {
    seq(|ix|, d requires 0 <= d < |ix| => BlankAtom(ix[d], gone))
  }

  function BlankExpr(e: Expr, gone: set<Name>): Expr {
    match e
    case Load(t, ix) => Load(t, BlankIndex(ix, gone))
    case Op(op, args) => Op(op, seq(|args|, k requires 0 <= k < |args| => BlankExpr(args[k], gone)))
    case _ => e
  }

  /** Every loop that may go and stands directly in a loop goes, and its coordinate becomes the full
      tile; `under` says whether the statement is the body of a loop. */
  function OnePass(s: Stmt, under: bool, gone: set<Name>, maxExtent: int): Stmt
    decreases s
  {
    match s
    case Store(t, v, ix) => Store(t, BlankExpr(v, gone), BlankIndex(ix, gone))
    case Loop(lo, hi, tile, x, b) =>
      if under && MayGo(s, maxExtent) then OnePass(b, true, gone + {Clean(x)}, maxExtent)
      else Loop(lo, hi, tile, x, OnePass(b, true, gone, maxExtent))
    case Seq(l, r) => Seq(OnePass(l, false, gone, maxExtent), OnePass(r, false, gone, maxExtent))
    case Block(ss) => Block(OnePassAll(ss, gone, maxExtent))
  }

  function OnePassAll(ss: seq<Stmt>, gone: set<Name>, maxExtent: int): (r: seq<Stmt>)
    ensures |r| == |ss| && forall k :: 0 <= k < |ss| ==> r[k] == OnePass(ss[k], false, gone, maxExtent)
    decreases ss
  {
    if ss == [] then [] else [OnePass(ss[0], false, gone, maxExtent)] + OnePassAll(ss[1..], gone, maxExtent)
  }

  // Trees the source builds: plain names, and no loop variable bound again inside its loop.

  predicate PlainAtom(a: Atom) {
    match a
    case Tile(n) => PlainName(n)
    case TileOffset(n, _) => PlainName(n)
    case Elem(n) => PlainName(n)
    case _ => true
  }

  predicate PlainIndex(ix: Index) { forall d :: 0 <= d < |ix| ==> PlainAtom(ix[d]) }

  predicate PlainExpr(e: Expr) {
    match e
    case Load(_, ix) => PlainIndex(ix)
    case Op(_, args) => forall k :: 0 <= k < |args| ==> PlainExpr(args[k])
    case _ => true
  }

  function Vars(s: Stmt): set<Name> { set x | x in LoopVars(s) :: Clean(x) }

  predicate Nested(s: Stmt) {
    match s
    case Store(_, v, ix) => PlainExpr(v) && PlainIndex(ix)
    case Loop(_, _, _, x, b) => PlainName(x) && Clean(x) !in Vars(b) && Nested(b)
    case Seq(l, r) => Nested(l) && Nested(r)
    case Block(ss) => forall k :: 0 <= k < |ss| ==> Nested(ss[k])
  }

  /** Elimination with the variable given by its clean name. */
  function Drop(s: Stmt, x: Name): Stmt
    decreases s
  {
    match s
    case Store(t, v, ix) => Store(t, BlankExpr(v, {x}), BlankIndex(ix, {x}))
    case Loop(lo, hi, tile, y, b) => if Clean(y) == x then Drop(b, x) else Loop(lo, hi, tile, y, Drop(b, x))
    case Seq(l, r) => Seq(Drop(l, x), Drop(r, x))
    case Block(ss) => Block(DropAll(ss, x))
  }

  function DropAll(ss: seq<Stmt>, x: Name): (r: seq<Stmt>)
    ensures |r| == |ss| && forall k :: 0 <= k < |ss| ==> r[k] == Drop(ss[k], x)
    decreases ss
  {
    if ss == [] then [] else [Drop(ss[0], x)] + DropAll(ss[1..], x)
  }

  lemma ElimIndexIsBlank(ix: Index, x: Name)
    requires PlainIndex(ix) && PlainName(x)
    ensures ElimIndex(ix, Spellings(x)) == BlankIndex(ix, {Clean(x)})
  {
    forall d | 0 <= d < |ix| ensures ElimAtom(ix[d], Spellings(x)) == BlankAtom(ix[d], {Clean(x)}) {
      assert PlainAtom(ix[d]);
      match ix[d]
      case Tile(n) => HitIsSameVariable(x, n);
      case TileOffset(n, _) => HitIsSameVariable(x, n);
      case Elem(n) => HitIsSameVariable(x, n);
      case _ =>
    }
  }

  lemma {:induction false} ElimExprIsBlank(e: Expr, x: Name)
    requires PlainExpr(e) && PlainName(x)
    ensures ElimExpr(e, Spellings(x)) == BlankExpr(e, {Clean(x)})
  {
    match e
    case Load(_, ix) => ElimIndexIsBlank(ix, x);
    case Op(_, args) =>
      forall k | 0 <= k < |args|
        ensures ElimExpr(args[k], Spellings(x)) == BlankExpr(args[k], {Clean(x)})
      {
        ElimExprIsBlank(args[k], x);
      }
    case _ =>
  }

  lemma {:induction false} ElimIsDrop(s: Stmt, x: Name)
    requires Nested(s) && PlainName(x)
    ensures Elim(s, Spellings(x)) == Drop(s, Clean(x))
    decreases s
  {
    match s
    case Store(_, v, ix) =>
      ElimExprIsBlank(v, x);
      ElimIndexIsBlank(ix, x);
    case Loop(_, _, _, y, b) =>
      HitIsSameVariable(x, y);
      ElimIsDrop(b, x);
      if Clean(x) == Clean(y) { SameSpellings(x, y); }
    case Seq(l, r) =>
      ElimIsDrop(l, x);
      ElimIsDrop(r, x);
    case Block(ss) =>
      forall k | 0 <= k < |ss| ensures Elim(ss[k], Spellings(x)) == Drop(ss[k], Clean(x)) { ElimIsDrop(ss[k], x); }
  }

  lemma SameSpellings(x: Name, y: Name)
    requires Clean(x) == Clean(y)
    ensures Spellings(x) + Spellings(y) == Spellings(x)
  {
    forall z: Name | z == x || z == y ensures z == Clean(z) || z == "v_" + Clean(z) {
      if z != Clean(z) { assert z == z[..2] + z[2..]; }
    }
  }

  lemma {:induction false} DropNested(s: Stmt, x: Name)
    requires Nested(s)
    ensures Nested(Drop(s, x)) && Vars(Drop(s, x)) <= Vars(s)
    decreases s
  {
    match s
    case Store(_, v, ix) => BlankPlain(v, {x});
    case Loop(_, _, _, y, b) =>
      DropNested(b, x);
      LoopsVars(s);
      LoopsVars(Drop(s, x));
    case Seq(l, r) =>
      DropNested(l, x);
      DropNested(r, x);
      LoopsVars(s);
      LoopsVars(Drop(s, x));
    case Block(ss) =>
      forall k | 0 <= k < |ss|
        ensures Nested(Drop(ss[k], x)) && Vars(Drop(ss[k], x)) <= Vars(ss[k])
      {
        DropNested(ss[k], x);
      }
      var after := Drop(s, x);
      forall v | v in Vars(after) ensures v in Vars(s) {
        var y :| y in LoopVars(after) && Clean(y) == v;
        var k :| 0 <= k < |after.stmts| && y in LoopVars(after.stmts[k]);
        assert v in Vars(after.stmts[k]) && v in Vars(ss[k]);
      }
  }

  lemma {:induction false} BlankPlain(e: Expr, gone: set<Name>)
    requires PlainExpr(e)
    ensures PlainExpr(BlankExpr(e, gone))
  {
    match e
    case Op(_, args) =>
      forall k | 0 <= k < |args| ensures PlainExpr(BlankExpr(args[k], gone)) { BlankPlain(args[k], gone); }
    case _ =>
  }

  // Blanking twice, and what it leaves of other variables.

  lemma {:induction false} BlankTwice(e: Expr, x: Name, gone: set<Name>)
    ensures BlankExpr(BlankExpr(e, {x}), gone) == BlankExpr(e, gone + {x})
  {
    match e
    case Load(_, ix) => BlankIndexTwice(ix, x, gone);
    case Op(_, args) =>
      forall k | 0 <= k < |args|
        ensures BlankExpr(BlankExpr(args[k], {x}), gone) == BlankExpr(args[k], gone + {x})
      {
        BlankTwice(args[k], x, gone);
      }
    case _ =>
  }

  lemma BlankIndexTwice(ix: Index, x: Name, gone: set<Name>)
    ensures BlankIndex(BlankIndex(ix, {x}), gone) == BlankIndex(ix, gone + {x})
  {
  }

  lemma {:induction false} BlankKeepsElems(e: Expr, gone: set<Name>, y: Name)
    requires Clean(y) !in gone
    ensures ExprHasElem(BlankExpr(e, gone), y) == ExprHasElem(e, y)
  {
    match e
    case Load(_, ix) => BlankIndexKeepsElems(ix, gone, y);
    case Op(_, args) =>
      var after := BlankExpr(e, gone).args;
      forall k | 0 <= k < |args|
        ensures ExprHasElem(after[k], y) == ExprHasElem(args[k], y)
      {
        BlankKeepsElems(args[k], gone, y);
      }
    case _ =>
  }

  lemma BlankIndexKeepsElems(ix: Index, gone: set<Name>, y: Name)
    requires Clean(y) !in gone
    ensures (exists d :: 0 <= d < |ix| && AtomIsElem(BlankIndex(ix, gone)[d], y)) ==
      (exists d :: 0 <= d < |ix| && AtomIsElem(ix[d], y))
  {
    forall d | 0 <= d < |ix| ensures AtomIsElem(BlankIndex(ix, gone)[d], y) == AtomIsElem(ix[d], y) {}
  }

  lemma {:induction false} DropKeepsElems(s: Stmt, x: Name, y: Name)
    requires Clean(y) != x
    ensures HasElem(Drop(s, x), y) == HasElem(s, y)
    decreases s
  {
    match s
    case Store(_, v, ix) =>
      BlankKeepsElems(v, {x}, y);
      BlankIndexKeepsElems(ix, {x}, y);
    case Loop(_, _, _, _, b) => DropKeepsElems(b, x, y);
    case Seq(_, _) =>
    case Block(ss) =>
      forall k | 0 <= k < |ss| ensures HasElem(Drop(ss[k], x), y) == HasElem(ss[k], y) { DropKeepsElems(ss[k], x, y); }
  }

  /** Dropping a variable bound outside only adds it to the eliminated ones. */
  lemma {:induction false} DropInside(s: Stmt, under: bool, gone: set<Name>, x: Name, maxExtent: int)
    requires Nested(s) && x !in Vars(s)
    ensures OnePass(Drop(s, x), under, gone, maxExtent) == OnePass(s, under, gone + {x}, maxExtent)
    decreases s
  {
    match s
    case Store(_, v, ix) =>
      BlankTwice(v, x, gone);
      BlankIndexTwice(ix, x, gone);
    case Loop(_, _, _, y, b) =>
      assert y in LoopVars(s) && Clean(y) in Vars(s);
      DropKeepsElems(b, x, y);
      EligibleIff(s, maxExtent);
      EligibleIff(Drop(s, x), maxExtent);
      assert gone + {x} + {Clean(y)} == gone + {Clean(y)} + {x};
      InnerVars(s);
      DropInside(b, true, gone, x, maxExtent);
      DropInside(b, true, gone + {Clean(y)}, x, maxExtent);
    case Seq(l, r) =>
      InnerVars(s);
      DropInside(l, false, gone, x, maxExtent);
      DropInside(r, false, gone, x, maxExtent);
    case Block(ss) =>
      InnerVars(s);
      forall k | 0 <= k < |ss|
        ensures OnePass(Drop(ss[k], x), false, gone, maxExtent) == OnePass(ss[k], false, gone + {x}, maxExtent)
      {
        DropInside(ss[k], false, gone, x, maxExtent);
      }
  }

  lemma LoopsVars(s: Stmt)
    ensures s.Loop? ==> Vars(s) == {Clean(s.loopVar)} + Vars(s.body)
    ensures s.Seq? ==> Vars(s) == Vars(s.left) + Vars(s.right)
  {
    if s.Loop? { assert LoopVars(s) == {s.loopVar} + LoopVars(s.body); }
    if s.Seq? { assert LoopVars(s) == LoopVars(s.left) + LoopVars(s.right); }
  }

  lemma InnerVars(s: Stmt)
    ensures s.Loop? ==> Vars(s.body) <= Vars(s)
    ensures s.Seq? ==> Vars(s.left) <= Vars(s) && Vars(s.right) <= Vars(s)
    ensures s.Block? ==> forall k :: 0 <= k < |s.stmts| ==> Vars(s.stmts[k]) <= Vars(s)
  {
    if s.Block? {
      forall k, v | 0 <= k < |s.stmts| && v in Vars(s.stmts[k]) ensures v in Vars(s) {
        var y :| y in LoopVars(s.stmts[k]) && Clean(y) == v;
        assert y in LoopVars(s);
      }
    }
  }

  /** Dropping one candidate of the chain leaves the one-pass result as it is. */
  lemma {:induction false} DropOne(s: Stmt, under: bool, gone: set<Name>, k: nat, x: Name, maxExtent: int)
    requires Nested(s) && k < |Chain(s)| && Eligible(Chain(s)[k], maxExtent) && Clean(Chain(s)[k].loopVar) == x
    requires k == 0 ==> under
    ensures OnePass(Drop(s, x), under, gone, maxExtent) == OnePass(s, under, gone, maxExtent)
    decreases s
  {
    EligibleIff(s, maxExtent);
    if k == 0 {
      DropInside(s.body, true, gone, x, maxExtent);
    } else {
      assert Chain(s)[k] == Chain(s.body)[k - 1];
      ChainVars(s.body, k - 1);
      DropKeepsElems(s.body, x, s.loopVar);
      EligibleIff(Drop(s, x), maxExtent);
      DropOne(s.body, true, gone, k - 1, x, maxExtent);
      DropOne(s.body, true, gone + {Clean(s.loopVar)}, k - 1, x, maxExtent);
    }
  }

  lemma {:induction false} ChainVars(s: Stmt, k: nat)
    requires k < |Chain(s)|
    ensures Clean(Chain(s)[k].loopVar) in Vars(s)
    decreases s
  {
    assert s.loopVar in LoopVars(s);
    if k > 0 {
      assert Chain(s)[k] == Chain(s.body)[k - 1];
      ChainVars(s.body, k - 1);
      InnerVars(s);
    }
  }

  lemma {:induction false} BlankNothing(e: Expr)
    ensures BlankExpr(e, {}) == e
  {
    match e
    case Load(_, ix) => assert BlankIndex(ix, {}) == ix;
    case Op(_, args) =>
      forall k | 0 <= k < |args| ensures BlankExpr(args[k], {}) == args[k] { BlankNothing(args[k]); }
    case _ =>
  }

  /** A chain without candidates stays, so one pass through its body is one pass from its head. */
  ghost predicate Settled(s: Stmt, maxExtent: int) {
    forall k :: 0 <= k < |Chain(s)| ==> !Eligible(Chain(s)[k], maxExtent)
  }

  lemma {:induction false} SettledHead(s: Stmt, under: bool, maxExtent: int)
    requires Settled(s, maxExtent)
    ensures OnePass(s, under, {}, maxExtent) == OnePass(s, false, {}, maxExtent)
  {
    if s.Loop? {
      assert Chain(s)[0] == s;
      EligibleIff(s, maxExtent);
    }
  }

  /** Removing the smallest loop again and again removes all eligible inner loops at once. */
  lemma {:induction false} RemovedIsOnePass(s: Stmt, maxExtent: int)
    requires Nested(s)
    ensures Removed(s, maxExtent) == OnePass(s, false, {}, maxExtent)
    decreases LoopCount(s), s
  {
    match s
    case Store(_, v, ix) =>
      BlankNothing(v);
      assert BlankIndex(ix, {}) == ix;
    case Seq(l, r) =>
      RemovedIsOnePass(l, maxExtent);
      RemovedIsOnePass(r, maxExtent);
    case Block(ss) => RemovedAllIsOnePass(ss, maxExtent);
    case Loop(_, _, _, y, b) =>
      NextShrinks(s, maxExtent);
      var next := Next(s, maxExtent);
      if next.Some? {
        var k :| 1 <= k < |Chain(s)| && Eligible(Chain(s)[k], maxExtent) && Chain(s)[k].loopVar == next.value;
        ChainPlain(s, k);
        ElimIsDrop(s, next.value);
        DropNested(s, Clean(next.value));
        DropOne(s, false, {}, k, Clean(next.value), maxExtent);
        RemovedIsOnePass(Elim(s, Spellings(next.value)), maxExtent);
      } else {
        forall k | 0 <= k < |Chain(b)|
          ensures !Eligible(Chain(b)[k], maxExtent)
        {
          assert Chain(b)[k] == Chain(s)[k + 1];
        }
        SettledHead(b, true, maxExtent);
        RemovedIsOnePass(b, maxExtent);
      }
  }

  lemma {:induction false} RemovedAllIsOnePass(ss: seq<Stmt>, maxExtent: int)
    requires forall k :: 0 <= k < |ss| ==> Nested(ss[k])
    ensures RemovedAll(ss, maxExtent) == OnePassAll(ss, {}, maxExtent)
    decreases LoopCountAll(ss), ss
  {
    if ss != [] {
      RemovedIsOnePass(ss[0], maxExtent);
      RemovedAllIsOnePass(ss[1..], maxExtent);
    }
  }

  lemma {:induction false} ChainPlain(s: Stmt, k: nat)
    requires Nested(s) && k < |Chain(s)|
    ensures PlainName(Chain(s)[k].loopVar)
    decreases s
  {
    if k > 0 {
      assert Chain(s)[k] == Chain(s.body)[k - 1];
      ChainPlain(s.body, k - 1);
    }
  }

  // ---------------------------------------------------------------------------------------------
  // Nothing eligible is left

  ghost predicate NoneLeft(s: Stmt, under: bool, maxExtent: int) {
    match s
    case Store(_, _, _) => true
    case Loop(_, _, _, _, b) => (under ==> !MayGo(s, maxExtent)) && NoneLeft(b, true, maxExtent)
    case Seq(l, r) => NoneLeft(l, false, maxExtent) && NoneLeft(r, false, maxExtent)
    case Block(ss) => forall k :: 0 <= k < |ss| ==> NoneLeft(ss[k], false, maxExtent)
  }

  lemma {:induction false} OnePassKeepsElems(s: Stmt, under: bool, gone: set<Name>, y: Name, maxExtent: int)
    requires Clean(y) !in gone && Clean(y) !in Vars(s)
    ensures HasElem(OnePass(s, under, gone, maxExtent), y) == HasElem(s, y)
    decreases s
  {
    InnerVars(s);
    match s
    case Store(_, v, ix) =>
      BlankKeepsElems(v, gone, y);
      BlankIndexKeepsElems(ix, gone, y);
    case Loop(_, _, _, x, b) =>
      assert x in LoopVars(s) && Clean(x) in Vars(s);
      OnePassKeepsElems(b, true, gone, y, maxExtent);
      OnePassKeepsElems(b, true, gone + {Clean(x)}, y, maxExtent);
    case Seq(_, _) =>
    case Block(ss) =>
      forall k | 0 <= k < |ss| ensures HasElem(OnePass(ss[k], false, gone, maxExtent), y) == HasElem(ss[k], y) {
        OnePassKeepsElems(ss[k], false, gone, y, maxExtent);
      }
  }

  lemma {:induction false} OnePassLeavesNone(s: Stmt, under: bool, gone: set<Name>, maxExtent: int)
    requires Nested(s) && gone !! Vars(s)
    ensures NoneLeft(OnePass(s, under, gone, maxExtent), under, maxExtent)
    decreases s
  {
    InnerVars(s);
    match s
    case Store(_, _, _) =>
    case Loop(_, _, _, x, b) =>
      assert x in LoopVars(s) && Clean(x) in Vars(s);
      OnePassLeavesNone(b, true, gone, maxExtent);
      OnePassLeavesNone(b, true, gone + {Clean(x)}, maxExtent);
      OnePassKeepsElems(b, true, gone, x, maxExtent);
      EligibleIff(s, maxExtent);
      EligibleIff(OnePass(s, false, gone, maxExtent), maxExtent);
    case Seq(l, r) =>
      OnePassLeavesNone(l, false, gone, maxExtent);
      OnePassLeavesNone(r, false, gone, maxExtent);
    case Block(ss) =>
      forall k | 0 <= k < |ss| ensures NoneLeft(OnePass(ss[k], false, gone, maxExtent), false, maxExtent) {
        OnePassLeavesNone(ss[k], false, gone, maxExtent);
      }
  }

  /** Where nothing is eligible the pass does nothing. */
  lemma {:induction false} NoneLeftUnchanged(s: Stmt, maxExtent: int)
    requires NoneLeft(s, false, maxExtent)
    ensures Removed(s, maxExtent) == s
    decreases s
  {
    match s
    case Store(_, _, _) =>
    case Loop(_, _, _, _, b) =>
      ChainIneligible(b, maxExtent);
      forall k | 1 <= k < |Chain(s)|
        ensures !Eligible(Chain(s)[k], maxExtent)
      {
        assert Chain(s)[k] == Chain(b)[k - 1];
      }
      NoneLeftAnywhere(b, maxExtent);
      NoneLeftUnchanged(b, maxExtent);
    case Seq(l, r) =>
      NoneLeftUnchanged(l, maxExtent);
      NoneLeftUnchanged(r, maxExtent);
    case Block(ss) => NoneLeftUnchangedAll(ss, maxExtent);
  }

  lemma {:induction false} NoneLeftUnchangedAll(ss: seq<Stmt>, maxExtent: int)
    requires forall k :: 0 <= k < |ss| ==> NoneLeft(ss[k], false, maxExtent)
    ensures RemovedAll(ss, maxExtent) == ss
    decreases ss
  {
    if ss != [] {
      NoneLeftUnchanged(ss[0], maxExtent);
      NoneLeftUnchangedAll(ss[1..], maxExtent);
    }
  }

  lemma {:induction false} ChainIneligible(s: Stmt, maxExtent: int)
    requires NoneLeft(s, true, maxExtent)
    ensures forall k :: 0 <= k < |Chain(s)| ==> !Eligible(Chain(s)[k], maxExtent)
    decreases s
  {
    EligibleIff(s, maxExtent);
    if s.Loop? { ChainIneligible(s.body, maxExtent); }
  }

  lemma NoneLeftAnywhere(s: Stmt, maxExtent: int)
    requires NoneLeft(s, true, maxExtent)
    ensures NoneLeft(s, false, maxExtent)
  {
  }

  /** The pass ends with no eligible loop inside a loop, and running it again changes nothing. */
  lemma RemovalIsComplete(s: Stmt, maxExtent: int)
    requires Nested(s)
    ensures NoneLeft(Removed(s, maxExtent), false, maxExtent)
    ensures Removed(Removed(s, maxExtent), maxExtent) == Removed(s, maxExtent)
  {
    RemovedIsOnePass(s, maxExtent);
    OnePassLeavesNone(s, false, {}, maxExtent);
    NoneLeftUnchanged(Removed(s, maxExtent), maxExtent);
  }

  // ---------------------------------------------------------------------------------------------
  // Exactly the loops that may go

  /** A loop without its body. */
  datatype Head = Head(start: Bound, end: Bound, tile: string, loopVar: Name)

  function HeadOf(s: Stmt): Head
    requires s.Loop?
  {
    Head(s.start, s.end, s.tile, s.loopVar)
  }

  function Heads(s: Stmt): seq<Head> { if s.Loop? then [HeadOf(s)] + Heads(s.body) else [] }

  /** The loops of a chain that stay; the outermost one does in any case. */
  function Kept(s: Stmt, under: bool, maxExtent: int): seq<Head> {
    if !s.Loop? then []
    else (if under && MayGo(s, maxExtent) then [] else [HeadOf(s)]) + Kept(s.body, true, maxExtent)
  }

  lemma {:induction false} OnePassHeads(s: Stmt, under: bool, gone: set<Name>, maxExtent: int)
    ensures Heads(OnePass(s, under, gone, maxExtent)) == Kept(s, under, maxExtent)
    decreases s
  {
    if s.Loop? {
      OnePassHeads(s.body, true, gone, maxExtent);
      OnePassHeads(s.body, true, gone + {Clean(s.loopVar)}, maxExtent);
    }
  }

  /** The chain of the result consists, in order and unchanged, of the outermost loop and the loops that may
      not go. */
  lemma ChainOfResult(s: Stmt, maxExtent: int)
    requires Nested(s)
    ensures Heads(Removed(s, maxExtent)) == Kept(s, false, maxExtent)
  {
    RemovedIsOnePass(s, maxExtent);
    OnePassHeads(s, false, {}, maxExtent);
  }

  lemma {:induction false} KeptIff(s: Stmt, under: bool, k: nat, maxExtent: int)
    requires Nested(s) && k < |Chain(s)|
    ensures HeadOf(Chain(s)[k]) in Kept(s, under, maxExtent) <==> (k == 0 && !under) || !MayGo(Chain(s)[k], maxExtent)
    decreases s
  {
    if k > 0 {
      assert Chain(s)[k] == Chain(s.body)[k - 1];
      KeptIff(s.body, true, k - 1, maxExtent);
      ChainVars(s.body, k - 1);
    } else {
      KeptVars(s.body, true, maxExtent);
      assert Clean(s.loopVar) !in Vars(s.body);
    }
  }

  lemma {:induction false} KeptVars(s: Stmt, under: bool, maxExtent: int)
    ensures forall h :: h in Kept(s, under, maxExtent) ==> Clean(h.loopVar) in Vars(s)
    decreases s
  {
    if s.Loop? {
      assert s.loopVar in LoopVars(s);
      KeptVars(s.body, true, maxExtent);
      InnerVars(s);
    }
  }

  /** An inner loop of the chain is removed exactly when its bounds are numbers at most the limit apart, and
      no coordinate of its nest is an element or a shifted tile of its variable. */
  lemma RemovedIff(s: Stmt, k: nat, maxExtent: int)
    requires Nested(s) && 1 <= k < |Chain(s)|
    ensures var l := Chain(s)[k];
      HeadOf(l) !in Heads(Removed(s, maxExtent)) <==>
        && l.start.Num? && l.end.Num? && l.end.n - l.start.n <= maxExtent
        && forall a :: a in Coordinates(l.body) && (a.Elem? || a.TileOffset?) ==> Clean(a.name) != Clean(l.loopVar)
  {
    ChainOfResult(s, maxExtent);
    KeptIff(s, false, k, maxExtent);
  }
}
