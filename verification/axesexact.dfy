/** Which axes get one name (frontend/utils/ir_utils.py, normalize_main_func_axes), told by the accesses of the
    calls and by the axes named before, without the table of groups that the pass keeps. */
module AxesExact {
  import opened Ast
  import opened LoopNames
  import opened Text
  import opened Axes

  // ---------------------------------------------------------------------------------------------
  // What is known of an axis

  /** The accesses the analysis sees: tensor and index of every store, and of every load that is not under a
      maximum, a minimum or a permutation. */
  function Seen(s: Stmt): set<(Name, Index)> {
    match s
    case Store(t, v, ix) => {(t, ix)} + SeenLoads(v)
    case Loop(_, _, _, _, b) => Seen(b)
    case Seq(l, r) => Seen(l) + Seen(r)
    case Block(ss) => set c, p | c in ss && p in Seen(c) :: p
  }

  function SeenLoads(e: Expr): set<(Name, Index)> {
    match e
    case Load(t, ix) => {(t, ix)}
    case Op(Max, _) => {}
    case Op(Min, _) => {}
    case Op(Permute3(_, _, _), _) => {}
    case Op(_, args) => set a, p | a in args && p in SeenLoads(a) :: p
    case _ => {}
  }

  /** A tile of the axis, shifted or not, stands in that dimension. */
  predicate Walks(p: (Name, Index), key: Name, t: Name, d: nat) {
    p.0 == t && d < |p.1| && (p.1[d].Tile? || p.1[d].TileOffset?) && Clean(p.1[d].name) == key
  }

  ghost predicate Addresses(s: Stmt, key: Name, t: Name, d: nat) { exists p :: p in Seen(s) && Walks(p, key, t, d) }

  ghost predicate Loads(e: Expr, key: Name, t: Name, d: nat) { exists p :: p in SeenLoads(e) && Walks(p, key, t, d) }

  lemma {:induction false} LoadUses(e: Expr, key: Name, t: Name, d: nat)
    ensures (t, d) in ExprUses(e, key) <==> Loads(e, key, t, d)
  {
    match e
    case Load(u, ix) =>
      assert (u, ix) in SeenLoads(e) && forall p :: p in SeenLoads(e) ==> p == (u, ix);
      assert Loads(e, key, t, d) <==> Walks((u, ix), key, t, d);
    case Op(op, args) =>
      forall a | a in args ensures (t, d) in ExprUses(a, key) <==> Loads(a, key, t, d) { LoadUses(a, key, t, d); }
      if !op.Max? && !op.Min? && !op.Permute3? { InOperands(op, args, key, t, d); }
    case _ =>
  }

  lemma InOperands(op: Oper, args: seq<Expr>, key: Name, t: Name, d: nat)
    requires !op.Max? && !op.Min? && !op.Permute3?
    ensures Loads(Op(op, args), key, t, d) <==> exists a :: a in args && Loads(a, key, t, d)
    ensures (t, d) in ExprUses(Op(op, args), key) <==> exists a :: a in args && (t, d) in ExprUses(a, key)
  {
    forall p ensures p in SeenLoads(Op(op, args)) <==> exists a :: a in args && p in SeenLoads(a) { }
    if a :| a in args && Loads(a, key, t, d) {
      var p :| p in SeenLoads(a) && Walks(p, key, t, d);
      assert p in SeenLoads(Op(op, args));
    }
  }

  lemma {:induction false} UsesIff(s: Stmt, key: Name, t: Name, d: nat)
    ensures (t, d) in StmtUses(s, key) <==> Addresses(s, key, t, d)
  {
    match s
    case Store(u, v, ix) =>
      LoadUses(v, key, t, d);
      assert (t, d) in IndexUses(u, ix, key) <==> Walks((u, ix), key, t, d);
      assert (u, ix) in Seen(s);
    case Loop(_, _, _, _, b) => UsesIff(b, key, t, d);
    case Seq(l, r) =>
      UsesIff(l, key, t, d);
      UsesIff(r, key, t, d);
    case Block(ss) =>
      forall c | c in ss ensures (t, d) in StmtUses(c, key) <==> Addresses(c, key, t, d) { UsesIff(c, key, t, d); }
      InBlock(ss, key, t, d);
  }

  lemma InBlock(ss: seq<Stmt>, key: Name, t: Name, d: nat)
    ensures Addresses(Block(ss), key, t, d) <==> exists c :: c in ss && Addresses(c, key, t, d)
  {
    if c :| c in ss && Addresses(c, key, t, d) {
      var p :| p in Seen(c) && Walks(p, key, t, d);
      assert p in Seen(Block(ss));
    }
  }

  /** The facts record of an axis exactly the dimensions its tiles address. */
  lemma AccessIff(s: Stmt, key: Name, t: Name)
    ensures t in FactsOf(s, key).access <==> exists d: nat :: Addresses(s, key, t, d)
    ensures t in FactsOf(s, key).access ==> forall d: nat :: d in FactsOf(s, key).access[t] <==> Addresses(s, key, t, d)
  {
    var uses := StmtUses(s, key);
    forall d: nat ensures (t, d) in uses <==> Addresses(s, key, t, d) { UsesIff(s, key, t, d); }
    if t in FactsOf(s, key).access {
      var u :| u in uses && u.0 == t;
      assert u == (t, u.1);
      assert forall d: nat :: d in DimsOf(uses, t) ==> exists u :: u in uses && u.0 == t && u.1 == d;
      assert forall d: nat :: (t, d) in uses ==> (t, d).0 == t && (t, d).1 == d;
    }
    if d: nat :| Addresses(s, key, t, d) { assert (t, d) in uses && (t, d).0 == t; }
  }

  /** The last loop over the axis that a walk meets: inside before outside, right before left. */
  function LastOver(s: Stmt, key: Name): Option<Stmt> {
    match s
    case Store(_, _, _) => None
    case Loop(_, _, _, x, b) =>
      var inner := LastOver(b, key);
      if inner.Some? then inner else if Clean(x) == key then Some(s) else None
    case Seq(l, r) =>
      var later := LastOver(r, key);
      if later.Some? then later else LastOver(l, key)
    case Block(ss) => LastOverAll(ss, key)
  }

  function LastOverAll(ss: seq<Stmt>, key: Name): Option<Stmt>
    decreases ss
  {
    if ss == [] then None
    else
      var later := LastOverAll(ss[1..], key);
      if later.Some? then later else LastOver(ss[0], key)
  }

  function RangeOf(l: Option<Stmt>): (Range, Option<string>) {
    match l
    case Some(Loop(lo, hi, tile, _, _)) =>
      (Range(if lo.Num? then Some(lo.n) else None, if hi.Num? then Some(hi.n) else None), Some(tile))
    case _ => (Range(None, None), None)
  }

  predicate AreLoops(ls: seq<Stmt>) { forall l :: l in ls ==> l.Loop? }

  lemma {:induction false} LastOfTwo(a: seq<Stmt>, b: seq<Stmt>, key: Name)
    requires AreLoops(a) && AreLoops(b)
    ensures LastLoop(a + b, key) == if LastLoop(b, key).1.Some? then LastLoop(b, key) else LastLoop(a, key)
    decreases |b|
  {
    if b == [] {
      assert a + b == a;
    } else {
      var n := |b| - 1;
      assert (a + b)[|a + b| - 1] == b[n] && (a + b)[..|a + b| - 1] == a + b[..n];
      LastOfTwo(a, b[..n], key);
    }
  }

  lemma {:induction false} LastLoopIs(s: Stmt, key: Name)
    ensures AreLoops(LoopsOf(s)) && LastLoop(LoopsOf(s), key) == RangeOf(LastOver(s, key))
    ensures LastOver(s, key).Some? ==> LastOver(s, key).value.Loop?
    decreases s
  {
    match s
    case Store(_, _, _) =>
    case Loop(_, _, _, x, b) =>
      LastLoopIs(b, key);
      LastOfTwo([s], LoopsOf(b), key);
      assert [s][..0] == [] && LastLoop([], key).1 == None;
    case Seq(l, r) =>
      LastLoopIs(l, key);
      LastLoopIs(r, key);
      LastOfTwo(LoopsOf(l), LoopsOf(r), key);
    case Block(ss) => LastLoopsAre(ss, key);
  }

  lemma {:induction false} LastLoopsAre(ss: seq<Stmt>, key: Name)
    ensures AreLoops(LoopsOfAll(ss)) && LastLoop(LoopsOfAll(ss), key) == RangeOf(LastOverAll(ss, key))
    ensures LastOverAll(ss, key).Some? ==> LastOverAll(ss, key).value.Loop?
    decreases ss
  {
    if ss != [] {
      LastLoopIs(ss[0], key);
      LastLoopsAre(ss[1..], key);
      LastOfTwo(LoopsOf(ss[0]), LoopsOfAll(ss[1..]), key);
    }
  }

  /** Range and tile of an axis are those of the last loop over it. */
  lemma RangeIff(s: Stmt, key: Name)
    ensures (FactsOf(s, key).range, FactsOf(s, key).tile) == RangeOf(LastOver(s, key))
  {
    LastLoopIs(s, key);
  }

  /** The axes of a call are its spatial ones and the variables of its loops. */
  lemma AxesIff(spatial: seq<Name>, root: Stmt, x: Name)
    ensures x in AllAxes(spatial, root) <==> x in spatial || x in LoopVars(root)
  {
    var loops := LoopsOf(root);
    var vars := seq(|loops|, k requires 0 <= k < |loops| => VarOf(loops[k]));
    LoopVarsIff(root, x);
    assert x in AllAxes(spatial, root) <==> x in spatial + vars;
    if l :| l in loops && l.Loop? && l.loopVar == x {
      var k :| 0 <= k < |loops| && loops[k] == l;
      assert vars[k] == x;
    }
    if x in vars {
      var k :| 0 <= k < |vars| && vars[k] == x;
      assert loops[k] in loops && loops[k].Loop?;
    }
  }

  lemma {:induction false} LoopVarsIff(s: Stmt, x: Name)
    ensures AreLoops(LoopsOf(s)) && (x in LoopVars(s) <==> exists l :: l in LoopsOf(s) && l.Loop? && l.loopVar == x)
    decreases s
  {
    match s
    case Store(_, _, _) =>
    case Loop(_, _, _, _, b) =>
      LoopVarsIff(b, x);
      assert s in LoopsOf(s);
    case Seq(l, r) =>
      LoopVarsIff(l, x);
      LoopVarsIff(r, x);
    case Block(ss) => LoopVarsAll(ss, x);
  }

  lemma {:induction false} LoopVarsAll(ss: seq<Stmt>, x: Name)
    ensures AreLoops(LoopsOfAll(ss))
    ensures x in LoopVars(Block(ss)) <==> exists l :: l in LoopsOfAll(ss) && l.Loop? && l.loopVar == x
    decreases ss
  {
    if ss != [] {
      LoopVarsIff(ss[0], x);
      LoopVarsAll(ss[1..], x);
      assert forall c :: c in ss <==> c == ss[0] || c in ss[1..];
    }
  }

  /** The statement that comes first when blocks and sequences are opened; none where that is an empty block. */
  function Foremost(s: Stmt): Option<Stmt> {
    match s
    case Seq(l, _) => Foremost(l)
    case Block(ss) => if ss == [] then None else Foremost(ss[0])
    case _ => Some(s)
  }

  /** The outermost axis is that of the first statement where that is a loop, and then of the first loop. */
  lemma {:induction false} OutermostIff(s: Stmt, x: Name)
    ensures Outermost(s) == Some(x) <==>
      Foremost(s).Some? && Foremost(s).value.Loop? && Clean(Foremost(s).value.loopVar) == x
    ensures Foremost(s).Some? && Foremost(s).value.Loop? ==> LoopsOf(s) != [] && LoopsOf(s)[0] == Foremost(s).value
    decreases s
  {
    match s
    case Seq(l, _) => OutermostIff(l, x);
    case Block(ss) =>
      if ss != [] {
        OutermostIff(ss[0], x);
        assert LoopsOfAll(ss) == LoopsOf(ss[0]) + LoopsOfAll(ss[1..]);
      }
    case _ =>
  }

  // ---------------------------------------------------------------------------------------------
  // Which axes share a group

  /** An axis as it comes up: what is known of it, and whether it is the outermost of its call. */
  datatype Visit = Visit(facts: Facts, outermost: bool)

  function Times(v: Visit): nat { if v.outermost then 1 else 0 }

  type VisitStep = (Table, Visit) -> Table

  function Enter(): VisitStep { (tb: Table, v: Visit) => Assign(tb, v.facts, Times(v)).table }

  function Fold(step: VisitStep, tb: Table, visits: seq<Visit>, n: nat): Table
    requires n <= |visits|
  {
    if n == 0 then tb else step(Fold(step, tb, visits, n - 1), visits[n - 1])
  }

  /** The groups once the first n axes are placed. */
  function TableAfter(names: nat -> Name, visits: seq<Visit>, n: nat): Table
    requires n <= |visits|
  {
    Fold(Enter(), Table([], 0, names), visits, n)
  }

  lemma NextTableIs(names: nat -> Name, visits: seq<Visit>, n: nat)
    requires n < |visits|
    ensures TableAfter(names, visits, n + 1) ==
      Assign(TableAfter(names, visits, n), visits[n].facts, Times(visits[n])).table
  {
  }

  /** The number of the group the n-th axis gets. */
  function PlaceOf(names: nat -> Name, visits: seq<Visit>, n: nat): nat
    requires n < |visits|
  {
    Assign(TableAfter(names, visits, n), visits[n].facts, Times(visits[n])).group
  }

  function PlacesOf(names: nat -> Name, visits: seq<Visit>, n: nat): (r: seq<nat>)
    requires n <= |visits|
    ensures |r| == n
  {
    seq(n, i requires 0 <= i < n => PlaceOf(names, visits, i))
  }

  predicate At(places: seq<nat>, i: int, k: nat) { 0 <= i < |places| && places[i] == k }

  /** The numbers of the axes in group k. */
  function Joined(places: seq<nat>, k: nat): set<nat> { set i: nat | i < |places| && places[i] == k }

  /** A tile given by a number, alone or after "tile_". */
  ghost predicate Fixed(tile: string) { exists digits: string :: FixedBy(tile, digits) }

  predicate FixedBy(tile: string, digits: string) {
    digits != [] && (forall c :: c in digits ==> '0' <= c <= '9') && (tile == digits || tile == "tile_" + digits)
  }

  ghost predicate TileSuits(tile: Option<string>, visits: seq<Visit>, places: seq<nat>, k: nat)
    requires |places| <= |visits|
  {
    match tile
    case None => exists i :: At(places, i, k) && visits[i].facts.tile == None
    case Some(t) =>
      if Fixed(t) then
        exists i ::
          At(places, i, k) && (visits[i].facts.tile == Some(t)
            || (visits[i].facts.tile.Some? && !Fixed(visits[i].facts.tile.value)))
      else exists i :: At(places, i, k) && visits[i].facts.tile.Some?
  }

  /** No tensor that both address is addressed in different dimensions. */
  predicate SameDims(f: Facts, h: Facts) { forall t :: t in f.access && t in h.access ==> f.access[t] == h.access[t] }

  /** An axis may join group k: one of the group has its range, the tiles allow it, and it agrees with every
      one of the group on the dimensions of the tensors they share. */
  ghost predicate Suits(visits: seq<Visit>, places: seq<nat>, f: Facts, k: nat)
    requires |places| <= |visits|
  {
    && (exists i :: At(places, i, k) && visits[i].facts.range == f.range)
    && TileSuits(f.tile, visits, places, k)
    && (forall i :: At(places, i, k) ==> SameDims(f, visits[i].facts))
  }

  ghost predicate Touches(visits: seq<Visit>, places: seq<nat>, k: nat, t: Name)
    requires |places| <= |visits|
  {
    exists i :: At(places, i, k) && t in visits[i].facts.access
  }

  /** How many of the tensors the axis addresses some axis of the group addresses too. */
  ghost function Shared(visits: seq<Visit>, places: seq<nat>, f: Facts, k: nat): nat
    requires |places| <= |visits|
  {
    |set t | t in f.access && Touches(visits, places, k, t)|
  }

  /** How many axes of the group are the outermost of their calls. */
  function Outer(visits: seq<Visit>, places: seq<nat>, k: nat): nat
    requires |places| <= |visits|
  {
    |set i: nat | i < |places| && places[i] == k && visits[i].outermost|
  }

  // ---------------------------------------------------------------------------------------------
  // What the groups hold

  ghost predicate RangesAre(visits: seq<Visit>, places: seq<nat>, k: nat, g: Group)
    requires |places| <= |visits|
  {
    forall r :: r in g.ranges <==> exists i :: At(places, i, k) && visits[i].facts.range == r
  }

  ghost predicate TilesAre(visits: seq<Visit>, places: seq<nat>, k: nat, g: Group)
    requires |places| <= |visits|
  {
    forall t :: t in g.tiles <==> exists i :: At(places, i, k) && visits[i].facts.tile == t
  }

  ghost predicate AccessIs(visits: seq<Visit>, places: seq<nat>, k: nat, g: Group)
    requires |places| <= |visits|
  {
    && (forall t :: t in g.access <==> Touches(visits, places, k, t))
    && (forall i, t :: At(places, i, k) && t in visits[i].facts.access ==>
      t in g.access && g.access[t] == visits[i].facts.access[t])
  }

  ghost predicate Describes(visits: seq<Visit>, places: seq<nat>, k: nat, g: Group)
    requires |places| <= |visits|
  {
    RangesAre(visits, places, k, g) && TilesAre(visits, places, k, g) && AccessIs(visits, places, k, g) &&
    g.outer == Outer(visits, places, k)
  }

  ghost predicate Described(visits: seq<Visit>, places: seq<nat>, groups: seq<Group>)
    requires |places| <= |visits|
  {
    && (forall k: nat :: k < |groups| <==> k in places)
    && (forall k :: 0 <= k < |groups| ==> Describes(visits, places, k, groups[k]))
  }

  lemma FixedIff(tile: string)
    ensures IsTileConstant(tile) <==> Fixed(tile)
  {
    if AllDigits(tile) { assert FixedBy(tile, tile); }
    if |tile| >= 5 && tile[..5] == "tile_" && AllDigits(tile[5..]) {
      assert tile == "tile_" + tile[5..];
      assert FixedBy(tile, tile[5..]);
    }
    if digits: string :| FixedBy(tile, digits) {
      assert tile == "tile_" + digits ==> tile[..5] == "tile_" && tile[5..] == digits;
    }
  }

  lemma TileSuitsIff(tile: Option<string>, visits: seq<Visit>, places: seq<nat>, k: nat, g: Group)
    requires |places| <= |visits| && TilesAre(visits, places, k, g)
    ensures TileCompatible(tile, g.tiles) <==> TileSuits(tile, visits, places, k)
  {
    forall t: string ensures IsTileConstant(t) <==> Fixed(t) { FixedIff(t); }
    assert forall i :: At(places, i, k) ==> visits[i].facts.tile in g.tiles;
  }

  lemma SuitsIff(visits: seq<Visit>, places: seq<nat>, f: Facts, k: nat, g: Group)
    requires |places| <= |visits| && Describes(visits, places, k, g)
    ensures Compatible(g, f) <==> Suits(visits, places, f, k)
    ensures Score(g, f) == Shared(visits, places, f, k)
  {
    TileSuitsIff(f.tile, visits, places, k, g);
    assert f.range in g.ranges <==> exists i :: At(places, i, k) && visits[i].facts.range == f.range;
    assert f.access.Keys * g.access.Keys == set t | t in f.access && Touches(visits, places, k, t);
    if AccessCompatible(f.access, g.access) {
      forall i | At(places, i, k) ensures SameDims(f, visits[i].facts) {
        assert forall t :: t in visits[i].facts.access ==> t in g.access && g.access[t] == visits[i].facts.access[t];
      }
    }
    if forall i :: At(places, i, k) ==> SameDims(f, visits[i].facts) {
      forall t | t in f.access && t in g.access ensures f.access[t] == g.access[t] {
        assert Touches(visits, places, k, t);
        var i :| At(places, i, k) && t in visits[i].facts.access;
        assert SameDims(f, visits[i].facts);
      }
    }
  }

  lemma AtMore(places: seq<nat>, p: nat, i: int, k: nat)
    ensures At(places + [p], i, k) <==> At(places, i, k) || (i == |places| && k == p)
  {
  }

  /** A group that the new axis does not get stays as it is. */
  lemma OthersDescribed(visits: seq<Visit>, places: seq<nat>, p: nat, k: nat, g: Group)
    requires |places| < |visits| && Describes(visits, places, k, g) && k != p
    ensures Describes(visits, places + [p], k, g)
  {
    forall i ensures At(places + [p], i, k) <==> At(places, i, k) { AtMore(places, p, i, k); }
    assert forall t :: Touches(visits, places + [p], k, t) <==> Touches(visits, places, k, t);
    assert (set i: nat | i < |places + [p]| && (places + [p])[i] == k && visits[i].outermost) ==
      set i: nat | i < |places| && places[i] == k && visits[i].outermost;
  }

  lemma OuterMore(visits: seq<Visit>, places: seq<nat>, p: nat)
    requires |places| < |visits|
    ensures Outer(visits, places + [p], p) == Outer(visits, places, p) + Times(visits[|places|])
  {
    var before := set i: nat | i < |places| && places[i] == p && visits[i].outermost;
    var after := set i: nat | i < |places + [p]| && (places + [p])[i] == p && visits[i].outermost;
    assert after == before + if visits[|places|].outermost then {|places|} else {};
  }

  lemma TouchesMore(visits: seq<Visit>, places: seq<nat>, p: nat, t: Name)
    requires |places| < |visits|
    ensures Touches(visits, places + [p], p, t) <==>
      Touches(visits, places, p, t) || t in visits[|places|].facts.access
  {
    forall i ensures At(places + [p], i, p) <==> At(places, i, p) || i == |places| { AtMore(places, p, i, p); }
    if t in visits[|places|].facts.access { assert At(places + [p], |places|, p); }
    if i :| At(places, i, p) && t in visits[i].facts.access { assert At(places + [p], i, p); }
  }

  /** The group the axis joins records it. */
  lemma JoinDescribed(visits: seq<Visit>, places: seq<nat>, p: nat, g: Group)
    requires |places| < |visits| && Describes(visits, places, p, g)
    requires AccessCompatible(visits[|places|].facts.access, g.access)
    ensures Describes(visits, places + [p], p, JoinGroup(g, visits[|places|].facts, Times(visits[|places|])))
  {
    var n, f := |places|, visits[|places|].facts;
    var g' := JoinGroup(g, f, Times(visits[n]));
    forall i ensures At(places + [p], i, p) <==> At(places, i, p) || i == n { AtMore(places, p, i, p); }
    assert At(places + [p], n, p);
    assert RangesAre(visits, places + [p], p, g');
    assert TilesAre(visits, places + [p], p, g');
    forall t ensures t in g'.access <==> Touches(visits, places + [p], p, t) { TouchesMore(visits, places, p, t); }
    OuterMore(visits, places, p);
  }

  /** A group of one axis. */
  function Single(name: Name, v: Visit): Group {
    Group(name, v.facts.access, {v.facts.range}, {v.facts.tile}, Times(v))
  }

  lemma FoundDescribed(visits: seq<Visit>, places: seq<nat>, p: nat, name: Name)
    requires |places| < |visits| && p !in places
    ensures Describes(visits, places + [p], p, Single(name, visits[|places|]))
  {
    var n, v := |places|, visits[|places|];
    forall i ensures At(places + [p], i, p) <==> i == n { AtMore(places, p, i, p); }
    assert At(places + [p], n, p);
    forall t ensures Touches(visits, places + [p], p, t) <==> t in v.facts.access { TouchesMore(visits, places, p, t); }
    OuterMore(visits, places, p);
    assert forall i :: 0 <= i < |places| ==> places[i] in places;
    assert Outer(visits, places, p) == 0 by {
      assert (set i: nat | i < |places| && places[i] == p && visits[i].outermost) == {};
    }
  }

  ghost predicate DescribedAfter(names: nat -> Name, visits: seq<Visit>, n: nat)
    requires n <= |visits|
  {
    Described(visits, PlacesOf(names, visits, n), TableAfter(names, visits, n).groups)
  }

  lemma {:induction false} GroupsDescribed(names: nat -> Name, visits: seq<Visit>, n: nat)
    requires n <= |visits|
    ensures DescribedAfter(names, visits, n)
  {
    if n > 0 {
      GroupsDescribed(names, visits, n - 1);
      NextDescribed(names, visits, n - 1);
    }
  }

  lemma NextDescribed(names: nat -> Name, visits: seq<Visit>, n: nat)
    requires n < |visits| && DescribedAfter(names, visits, n)
    ensures DescribedAfter(names, visits, n + 1)
  {
    StepDescribed(visits, n, PlacesOf(names, visits, n), TableAfter(names, visits, n));
    NextTableIs(names, visits, n);
    assert PlacesOf(names, visits, n + 1) == PlacesOf(names, visits, n) + [PlaceOf(names, visits, n)];
  }

  lemma StepDescribed(visits: seq<Visit>, n: nat, places: seq<nat>, tb: Table)
    requires n < |visits| && |places| == n && Described(visits, places, tb.groups)
    ensures var r := Assign(tb, visits[n].facts, Times(visits[n]));
      Described(visits, places + [r.group], r.table.groups)
  {
    var v := visits[n];
    var r := Assign(tb, v.facts, Times(v));
    var groups, p := r.table.groups, r.group;
    BestIsCompatible(tb.groups, v.facts);
    if p < |tb.groups| {
      JoinDescribed(visits, places, p, tb.groups[p]);
      assert groups == tb.groups[p := JoinGroup(tb.groups[p], v.facts, Times(v))];
    } else {
      FoundDescribed(visits, places, p, groups[p].name);
      assert groups == tb.groups + [Single(groups[p].name, v)];
    }
    forall k | 0 <= k < |groups| && k != p ensures Describes(visits, places + [p], k, groups[k]) {
      OthersDescribed(visits, places, p, k, tb.groups[k]);
    }
    MorePlaces(places, p, |tb.groups|);
  }

  lemma MorePlaces(places: seq<nat>, p: nat, size: nat)
    requires (forall k: nat :: k < size <==> k in places) && p <= size
    ensures forall k: nat :: k < (if p == size then size + 1 else size) <==> k in places + [p]
  {
    assert forall k: nat :: k in places + [p] <==> k in places || k == p;
  }

  // ---------------------------------------------------------------------------------------------
  // The main results

  ghost predicate Preferred(visits: seq<Visit>, places: seq<nat>, f: Facts, p: nat, k: nat)
    requires |places| <= |visits|
  {
    var here, there := Shared(visits, places, f, p), Shared(visits, places, f, k);
    here > there || (here == there &&
      (Outer(visits, places, p) > Outer(visits, places, k)
       || (Outer(visits, places, p) == Outer(visits, places, k) && p <= k)))
  }

  /** An axis joins an earlier group exactly when one suits it, and then the suiting group that shares the most
      tensors with it, was outermost most often, and is the oldest; otherwise it founds the next group. */
  lemma PlacedIff(names: nat -> Name, visits: seq<Visit>, n: nat)
    requires n < |visits|
    ensures var places, f, p := PlacesOf(names, visits, n), visits[n].facts, PlaceOf(names, visits, n);
      && (p in places <==> exists k: nat :: k in places && Suits(visits, places, f, k))
      && (p in places ==> Suits(visits, places, f, p))
      && (p in places ==>
        forall k: nat :: k in places && Suits(visits, places, f, k) ==> Preferred(visits, places, f, p, k))
      && (p !in places ==> forall j: nat :: j in places <==> j < p)
  {
    var tb, places, f := TableAfter(names, visits, n), PlacesOf(names, visits, n), visits[n].facts;
    GroupsDescribed(names, visits, n);
    var ranks, best := Ranks(tb.groups, f), Best(tb.groups, f);
    HighestIsHighest(ranks, |ranks|);
    BestIsCompatible(tb.groups, f);
    forall k: nat | k < |tb.groups|
      ensures ranks[k].Rank? <==> Suits(visits, places, f, k)
      ensures ranks[k].Rank? ==> ranks[k] == Axes.Rank.Rank(Shared(visits, places, f, k), Outer(visits, places, k))
    {
      SuitsIff(visits, places, f, k, tb.groups[k]);
    }
    if best.Some? { assert FirstHighest(ranks, |ranks|, best.value); }
  }

  // ---------------------------------------------------------------------------------------------
  // The axes of a program

  function VisitOf(kn: Known, axis: Name): Visit { Visit(kn.facts(Clean(axis)), kn.outermost == Some(Clean(axis))) }

  function VisitsOf(kn: Known, axes: seq<Name>): (r: seq<Visit>)
    ensures |r| == |axes| && forall j :: 0 <= j < |axes| ==> r[j] == VisitOf(kn, axes[j])
  {
    seq(|axes|, j requires 0 <= j < |axes| => VisitOf(kn, axes[j]))
  }

  function AxesOf(c: AxisCall): seq<Name> { AllAxes(c.spatial, c.call.root) }

  /** The axes of a call in the order they come up. */
  function CallVisits(c: AxisCall): seq<Visit> { VisitsOf(KnownOf(c.call.root), AxesOf(c)) }

  /** Those of the first k calls. */
  function Visits(calls: seq<AxisCall>, k: nat): seq<Visit>
    requires k <= |calls|
  {
    if k == 0 then [] else Visits(calls, k - 1) + CallVisits(calls[k - 1])
  }

  lemma {:induction false} VisitsGrow(calls: seq<AxisCall>, k: nat, l: nat)
    requires k <= l <= |calls|
    ensures Visits(calls, k) <= Visits(calls, l)
  {
    if k < l { VisitsGrow(calls, k, l - 1); }
  }

  lemma {:induction false} FoldKeeps(step: VisitStep, tb: Table, visits: seq<Visit>, n: nat, kept: Table -> bool)
    requires n <= |visits| && kept(tb) && forall m: Table, v: Visit :: kept(m) ==> kept(step(m, v))
    ensures kept(Fold(step, tb, visits, n))
  {
    if n > 0 { FoldKeeps(step, tb, visits, n - 1, kept); }
  }

  lemma NamedInOrder(names: nat -> Name, visits: seq<Visit>, n: nat)
    requires Supplies(names)
    requires n <= |visits|
    ensures TableOk(TableAfter(names, visits, n)) && TableAfter(names, visits, n).supply == names
  {
    ghost var kept := (m: Table) => TableOk(m) && m.supply == names;
    forall m: Table, v: Visit | kept(m) ensures kept(Enter()(m, v)) { AssignOk(m, v.facts, Times(v)); }
    FoldKeeps(Enter(), Table([], 0, names), visits, n, kept);
  }

  /** The tables between the axes: each leads to the next. */
  ghost predicate LeadsOn(tables: nat -> Table, enter: VisitStep, all: seq<Visit>, i: nat)
    requires i < |all|
  {
    tables(i + 1) == enter(tables(i), all[i])
  }

  ghost predicate Linked(tables: nat -> Table, enter: VisitStep, all: seq<Visit>) {
    forall i: nat :: i < |all| ==> LeadsOn(tables, enter, all, i)
  }

  type Giver = (Table, Visit) -> Name

  /** One step of the naming enters the axis and records the name given. */
  ghost predicate Does(step: Step, enter: VisitStep, gives: Giver, axis: Name, v: Visit) {
    forall m: Naming {:trigger step(m, axis)} ::
      step(m, axis) == Naming(enter(m.table, v), m.renames[axis := gives(m.table, v)][Clean(axis) := gives(m.table, v)])
  }

  ghost predicate DoesAll(step: Step, enter: VisitStep, gives: Giver, axes: seq<Name>, all: seq<Visit>, from: nat) {
    from + |axes| <= |all| && forall i: nat :: i < |axes| ==> Does(step, enter, gives, axes[i], all[from + i])
  }

  lemma OneStep(step: Step, enter: VisitStep, gives: Giver, nm: Naming, axes: seq<Name>, i: nat, v: Visit, t: Table,
      t': Table)
    requires i < |axes| && Does(step, enter, gives, axes[i], v)
    requires NameEach(step, nm, axes, i).table == t && t' == enter(t, v)
    ensures NameEach(step, nm, axes, i + 1).table == t'
  {
  }

  lemma NextStep(step: Step, enter: VisitStep, gives: Giver, tables: nat -> Table, nm: Naming, axes: seq<Name>,
      all: seq<Visit>, from: nat, i: nat, j: nat)
    requires DoesAll(step, enter, gives, axes, all, from) && Linked(tables, enter, all) && j == i + 1 <= |axes|
    requires NameEach(step, nm, axes, i).table == tables(from + i)
    ensures NameEach(step, nm, axes, j).table == tables(from + j)
  {
    assert Does(step, enter, gives, axes[i], all[from + i]) && LeadsOn(tables, enter, all, from + i);
    OneStep(step, enter, gives, nm, axes, i, all[from + i], tables(from + i), tables(from + j));
  }

  /** Naming the axes of a call goes on where the axes before it stopped. */
  lemma {:induction false} CallTable(step: Step, enter: VisitStep, gives: Giver, tables: nat -> Table, nm: Naming,
      axes: seq<Name>, all: seq<Visit>, from: nat, j: nat)
    requires DoesAll(step, enter, gives, axes, all, from) && Linked(tables, enter, all) && j <= |axes|
    requires nm.table == tables(from)
    ensures NameEach(step, nm, axes, j).table == tables(from + j)
  {
    if j > 0 {
      CallTable(step, enter, gives, tables, nm, axes, all, from, j - 1);
      NextStep(step, enter, gives, tables, nm, axes, all, from, j - 1, j);
    } else {
      assert from + j == from;
    }
  }

  /** From `from` on, the axes come up. */
  predicate Lists(all: seq<Visit>, from: nat, kn: Known, axes: seq<Name>) {
    from + |axes| <= |all| &&
    forall i {:trigger VisitOf(kn, axes[i])} :: 0 <= i < |axes| ==> all[from + i] == VisitOf(kn, axes[i])
  }

  /** The name of the group that a table gives an axis. */
  function Gives(): Giver {
    (tb: Table, v: Visit) =>
      var r := Assign(tb, v.facts, Times(v));
      r.table.groups[r.group].name
  }

  lemma OneAxis(kn: Known, axis: Name)
    ensures Does(NamingStep(kn), Enter(), Gives(), axis, VisitOf(kn, axis))
  {
  }

  lemma EachAxis(kn: Known, axes: seq<Name>, all: seq<Visit>, from: nat)
    requires Lists(all, from, kn, axes)
    ensures DoesAll(NamingStep(kn), Enter(), Gives(), axes, all, from)
  {
    forall i: nat | i < |axes| ensures Does(NamingStep(kn), Enter(), Gives(), axes[i], all[from + i]) {
      OneAxis(kn, axes[i]);
    }
  }

  /** How many axes come up before the k-th call. */
  function From(calls: seq<AxisCall>, k: nat): nat
    requires k <= |calls|
  {
    |Visits(calls, k)|
  }

  lemma ListsHere(vs: seq<Visit>, kn: Known, axes: seq<Name>, all: seq<Visit>)
    requires vs + VisitsOf(kn, axes) <= all
    ensures Lists(all, |vs|, kn, axes)
  {
    var more := VisitsOf(kn, axes);
    forall i | 0 <= i < |axes| ensures all[|vs| + i] == VisitOf(kn, axes[i]) {
      assert (vs + more)[|vs| + i] == more[i];
    }
  }

  lemma ListsCall(calls: seq<AxisCall>, k: nat)
    requires k < |calls|
    ensures Lists(Visits(calls, |calls|), From(calls, k), KnownOf(calls[k].call.root), AxesOf(calls[k]))
    ensures From(calls, k + 1) == From(calls, k) + |AxesOf(calls[k])|
  {
    VisitsGrow(calls, k + 1, |calls|);
    ListsHere(Visits(calls, k), KnownOf(calls[k].call.root), AxesOf(calls[k]), Visits(calls, |calls|));
  }

  ghost predicate Follows(step: TableStep, tables: nat -> Table, l: nat) { step(tables(l), l) == tables(l + 1) }

  lemma {:induction false} TablesFollow(step: TableStep, tables: nat -> Table, k: nat)
    requires forall l: nat :: l < k ==> Follows(step, tables, l)
    ensures TablesOn(step, tables(0), k) == tables(k)
  {
    if k > 0 {
      TablesFollow(step, tables, k - 1);
      assert Follows(step, tables, k - 1);
    }
  }

  /** The tables that the calls meet, the l-th after `at(l)` axes. */
  function Picked(tables: nat -> Table, at: nat -> nat): nat -> Table { (l: nat) => tables(at(l)) }

  lemma CallFollows(next: TableStep, step: Step, enter: VisitStep, gives: Giver, tables: nat -> Table, axes: seq<Name>,
      all: seq<Visit>, at: nat -> nat, l: nat)
    requires DoesAll(step, enter, gives, axes, all, at(l)) && Linked(tables, enter, all) && at(l + 1) == at(l) + |axes|
    requires next(tables(at(l)), l) == NameEach(step, Naming(tables(at(l)), map[]), axes, |axes|).table
    ensures Follows(next, Picked(tables, at), l)
  {
    CallTable(step, enter, gives, tables, Naming(tables(at(l)), map[]), axes, all, at(l), |axes|);
    PickedFollows(next, tables, at, l, tables(at(l)), tables(at(l + 1)));
  }

  lemma PickedFollows(next: TableStep, tables: nat -> Table, at: nat -> nat, l: nat, a: Table, b: Table)
    requires tables(at(l)) == a && tables(at(l + 1)) == b && next(a, l) == b
    ensures Follows(next, Picked(tables, at), l)
  {
  }

  function Starts(calls: seq<AxisCall>): nat -> nat { (l: nat) => if l <= |calls| then From(calls, l) else 0 }

  lemma NextIs(calls: seq<AxisCall>, tb: Table, l: nat)
    requires l < |calls|
    ensures NextTable(calls)(tb, l) ==
      NameEach(NamingStep(KnownOf(calls[l].call.root)), Naming(tb, map[]), AxesOf(calls[l]), |AxesOf(calls[l])|).table
  {
  }

  lemma ProgramTable(tables: nat -> Table, calls: seq<AxisCall>, k: nat)
    requires k < |calls| && Linked(tables, Enter(), Visits(calls, |calls|))
    ensures TableBefore(tables(0), calls, k) == tables(From(calls, k))
  {
    forall l: nat | l < k ensures Follows(NextTable(calls), Picked(tables, Starts(calls)), l) {
      CallLinks(tables, calls, l);
    }
    TablesFollow(NextTable(calls), Picked(tables, Starts(calls)), k);
    assert Starts(calls)(0) == 0 && Starts(calls)(k) == From(calls, k);
  }

  lemma CallLinks(tables: nat -> Table, calls: seq<AxisCall>, l: nat)
    requires l < |calls| && Linked(tables, Enter(), Visits(calls, |calls|))
    ensures Follows(NextTable(calls), Picked(tables, Starts(calls)), l)
  {
    ListsCall(calls, l);
    assert Starts(calls)(l) == From(calls, l) && Starts(calls)(l + 1) == From(calls, l + 1);
    ThroughCall(tables, calls, KnownOf(calls[l].call.root), AxesOf(calls[l]), Visits(calls, |calls|), Starts(calls), l);
  }

  lemma ThroughCall(tables: nat -> Table, calls: seq<AxisCall>, kn: Known, axes: seq<Name>, all: seq<Visit>,
      at: nat -> nat, l: nat)
    requires l < |calls| && kn == KnownOf(calls[l].call.root) && axes == AxesOf(calls[l])
    requires Linked(tables, Enter(), all) && Lists(all, at(l), kn, axes) && at(l + 1) == at(l) + |axes|
    ensures Follows(NextTable(calls), Picked(tables, at), l)
  {
    EachAxis(kn, axes, all, at(l));
    NextIs(calls, tables(at(l)), l);
    CallFollows(NextTable(calls), NamingStep(kn), Enter(), Gives(), tables, axes, all, at, l);
  }

  /** The pass records the axis under its spelling and its clean name. */
  predicate Spells(axis: Name, n: Name) { axis == n || Clean(axis) == n }

  predicate LastSpelling(axes: seq<Name>, j: nat, i: nat, n: Name) {
    i < j <= |axes| && Spells(axes[i], n) && forall m :: i < m < j ==> !Spells(axes[m], n)
  }

  /** What naming the first j axes records under n, if the i-th step names the i-th axis as `given` says. */
  ghost predicate Recorded(renames: map<Name, Name>, axes: seq<Name>, given: nat -> Name, j: nat, n: Name)
    requires j <= |axes|
  {
    && (n in renames <==> exists i :: 0 <= i < j && Spells(axes[i], n))
    && (forall i: nat :: LastSpelling(axes, j, i, n) ==> n in renames && renames[n] == given(i))
  }

  lemma RecordedNext(renames: map<Name, Name>, axes: seq<Name>, given: nat -> Name, j: nat, k: nat, n: Name)
    requires k == j + 1 <= |axes| && Recorded(renames, axes, given, j, n)
    ensures Recorded(renames[axes[j] := given(j)][Clean(axes[j]) := given(j)], axes, given, k, n)
  {
    if Spells(axes[j], n) {
      assert forall i: nat :: LastSpelling(axes, k, i, n) ==> i == j;
    } else {
      assert forall i: nat :: LastSpelling(axes, k, i, n) ==> LastSpelling(axes, j, i, n);
    }
  }

  /** The i-th step records the axis and its clean name under the given name. */
  predicate Records(step: Step, nm: Naming, axes: seq<Name>, given: nat -> Name, i: nat)
    requires i < |axes|
  {
    var m := NameEach(step, nm, axes, i);
    step(m, axes[i]).renames == m.renames[axes[i] := given(i)][Clean(axes[i]) := given(i)]
  }

  lemma {:induction false} EachRecorded(step: Step, nm: Naming, axes: seq<Name>, given: nat -> Name, j: nat, n: Name)
    requires j <= |axes| && nm.renames == map[] && forall i: nat :: i < j ==> Records(step, nm, axes, given, i)
    ensures Recorded(NameEach(step, nm, axes, j).renames, axes, given, j, n)
  {
    if j > 0 {
      EachRecorded(step, nm, axes, given, j - 1, n);
      assert Records(step, nm, axes, given, j - 1);
      RecordedNext(NameEach(step, nm, axes, j - 1).renames, axes, given, j - 1, j, n);
    }
  }

  /** The name the n-th axis gets. */
  function NameOf(names: nat -> Name, visits: seq<Visit>, n: nat): Name
    requires n < |visits|
  {
    names(PlaceOf(names, visits, n))
  }

  /** The names the axes get from `from` on. */
  function Given(gives: Giver, tables: nat -> Table, all: seq<Visit>, from: nat): nat -> Name {
    (i: nat) => if from + i < |all| then gives(tables(from + i), all[from + i]) else ""
  }

  lemma GivenAt(gives: Giver, tables: nat -> Table, all: seq<Visit>, from: nat, i: nat)
    requires from + i < |all|
    ensures Given(gives, tables, all, from)(i) == gives(tables(from + i), all[from + i])
  {
  }

  lemma OneRecord(step: Step, enter: VisitStep, gives: Giver, nm: Naming, axes: seq<Name>, i: nat, v: Visit, t: Table,
      given: nat -> Name)
    requires i < |axes| && Does(step, enter, gives, axes[i], v)
    requires NameEach(step, nm, axes, i).table == t && given(i) == gives(t, v)
    ensures Records(step, nm, axes, given, i)
  {
  }

  lemma CallNames(step: Step, enter: VisitStep, gives: Giver, tables: nat -> Table, nm: Naming, axes: seq<Name>,
      all: seq<Visit>, from: nat, given: nat -> Name, n: Name)
    requires DoesAll(step, enter, gives, axes, all, from) && Linked(tables, enter, all)
    requires nm == Naming(tables(from), map[]) && given == Given(gives, tables, all, from)
    ensures Recorded(NameEach(step, nm, axes, |axes|).renames, axes, given, |axes|, n)
  {
    forall i: nat | i < |axes| ensures Records(step, nm, axes, given, i) {
      CallTable(step, enter, gives, tables, nm, axes, all, from, i);
      assert Does(step, enter, gives, axes[i], all[from + i]);
      GivenAt(gives, tables, all, from, i);
      OneRecord(step, enter, gives, nm, axes, i, all[from + i], tables(from + i), given);
    }
    EachRecorded(step, nm, axes, given, |axes|, n);
  }

  /** What the pass renames in the k-th call. */
  function RenamesOf(names: nat -> Name, calls: seq<AxisCall>, k: nat): map<Name, Name>
    requires k < |calls|
  {
    NamingOf(TableBefore(Table([], 0, names), calls, k), calls[k]).renames
  }

  lemma CallRecorded(tables: nat -> Table, calls: seq<AxisCall>, k: nat, n: Name)
    requires k < |calls| && Linked(tables, Enter(), Visits(calls, |calls|))
    ensures Recorded(NamingOf(TableBefore(tables(0), calls, k), calls[k]).renames, AxesOf(calls[k]),
      Given(Gives(), tables, Visits(calls, |calls|), From(calls, k)), |AxesOf(calls[k])|, n)
  {
    var kn, axes, all := KnownOf(calls[k].call.root), AxesOf(calls[k]), Visits(calls, |calls|);
    ListsCall(calls, k);
    EachAxis(kn, axes, all, From(calls, k));
    ProgramTable(tables, calls, k);
    CallNames(NamingStep(kn), Enter(), Gives(), tables, Naming(tables(From(calls, k)), map[]), axes, all,
      From(calls, k),
      Given(Gives(), tables, all, From(calls, k)), n);
  }

  /** The tables of a run from the start. */
  function TablesOf(names: nat -> Name, all: seq<Visit>): nat -> Table {
    (i: nat) => if i <= |all| then TableAfter(names, all, i) else Table([], 0, names)
  }

  lemma TablesAt(names: nat -> Name, all: seq<Visit>, i: nat)
    requires i <= |all|
    ensures TablesOf(names, all)(i) == TableAfter(names, all, i)
  {
  }

  lemma LeadsIf(tables: nat -> Table, enter: VisitStep, all: seq<Visit>, i: nat, t: Table, t': Table)
    requires i < |all| && tables(i) == t && tables(i + 1) == t' && t' == enter(t, all[i])
    ensures LeadsOn(tables, enter, all, i)
  {
  }

  lemma RunLinked(names: nat -> Name, all: seq<Visit>)
    ensures Linked(TablesOf(names, all), Enter(), all) && TablesOf(names, all)(0) == Table([], 0, names)
  {
    forall i: nat | i < |all| ensures LeadsOn(TablesOf(names, all), Enter(), all, i) {
      NextTableIs(names, all, i);
      TablesAt(names, all, i);
      TablesAt(names, all, i + 1);
      LeadsIf(TablesOf(names, all), Enter(), all, i, TableAfter(names, all, i), TableAfter(names, all, i + 1));
    }
    TablesAt(names, all, 0);
  }

  lemma GivesInOrder(tb: Table, v: Visit)
    requires TableOk(tb)
    ensures Gives()(tb, v) == tb.supply(Assign(tb, v.facts, Times(v)).group)
  {
    AssignOk(tb, v.facts, Times(v));
  }

  lemma GivesPlace(names: nat -> Name, visits: seq<Visit>, n: nat)
    requires Supplies(names) && n < |visits|
    ensures Gives()(TableAfter(names, visits, n), visits[n]) == NameOf(names, visits, n)
  {
    NamedInOrder(names, visits, n);
    GivesInOrder(TableAfter(names, visits, n), visits[n]);
  }

  lemma GivenIs(names: nat -> Name, all: seq<Visit>, from: nat, i: nat)
    requires Supplies(names) && from + i < |all|
    ensures Given(Gives(), TablesOf(names, all), all, from)(i) == NameOf(names, all, from + i)
  {
    GivenAt(Gives(), TablesOf(names, all), all, from, i);
    TablesAt(names, all, from + i);
    GivesPlace(names, all, from + i);
  }

  /** The i-th axis of the k-th call is the last that the spelling n stands for. */
  predicate StandsFor(calls: seq<AxisCall>, k: nat, i: nat, n: Name) {
    k < |calls| && LastSpelling(AxesOf(calls[k]), |AxesOf(calls[k])|, i, n)
  }

  /** In the k-th call exactly the spellings of its axes are renamed, each to the name of the place its axis got
      among all axes of the program. */
  lemma NamesArePlaces(names: nat -> Name, calls: seq<AxisCall>, k: nat, n: Name)
    requires Supplies(names) && k < |calls|
    ensures NamedByPlace(names, calls, k, n, RenamesOf(names, calls, k), Visits(calls, |calls|), From(calls, k))
  {
    var all := Visits(calls, |calls|);
    RunLinked(names, all);
    ListsCall(calls, k);
    CallRecorded(TablesOf(names, all), calls, k, n);
    RecordedNames(names, calls, k, n, RenamesOf(names, calls, k), AxesOf(calls[k]), all, From(calls, k));
  }

  /** The spelling is renamed exactly when an axis of the call has it, to the name of that axis's place. */
  ghost predicate NamedByPlace(names: nat -> Name, calls: seq<AxisCall>, k: nat, n: Name, renames: map<Name, Name>,
      all: seq<Visit>, from: nat)
    requires k < |calls|
  {
    && (n in renames <==> exists i :: 0 <= i < |AxesOf(calls[k])| && Spells(AxesOf(calls[k])[i], n))
    && (forall i: nat :: StandsFor(calls, k, i, n) ==>
      n in renames && from + i < |all| && renames[n] == NameOf(names, all, from + i))
  }

  lemma RecordedNames(names: nat -> Name, calls: seq<AxisCall>, k: nat, n: Name, renames: map<Name, Name>,
      axes: seq<Name>, all: seq<Visit>, from: nat)
    requires k < |calls| && axes == AxesOf(calls[k]) && from + |axes| <= |all|
    requires Supplies(names) && Recorded(renames, axes, Given(Gives(), TablesOf(names, all), all, from), |axes|, n)
    ensures NamedByPlace(names, calls, k, n, renames, all, from)
  {
    forall i: nat | StandsFor(calls, k, i, n) ensures n in renames && renames[n] == NameOf(names, all, from + i) {
      assert LastSpelling(axes, |axes|, i, n);
      GivenIs(names, all, from, i);
    }
  }

  /** So two spellings anywhere in the program get one name exactly when their axes got one place. */
  lemma OneNameIffOnePlace(names: nat -> Name, calls: seq<AxisCall>, k: nat, i: nat, n: Name, l: nat, j: nat, m: Name)
    requires Supplies(names) && StandsFor(calls, k, i, n) && StandsFor(calls, l, j, m)
    ensures n in RenamesOf(names, calls, k) && m in RenamesOf(names, calls, l)
    ensures var all, x, y := Visits(calls, |calls|), From(calls, k) + i, From(calls, l) + j;
      x < |all| && y < |all| &&
      (RenamesOf(names, calls, k)[n] == RenamesOf(names, calls, l)[m] <==>
        PlaceOf(names, all, x) == PlaceOf(names, all, y))
  {
    NamesArePlaces(names, calls, k, n);
    NamesArePlaces(names, calls, l, m);
    SameNameIff(names, Visits(calls, |calls|), From(calls, k) + i, From(calls, l) + j);
  }

  lemma SameNameIff(names: nat -> Name, visits: seq<Visit>, x: nat, y: nat)
    requires Supplies(names)
    requires x < |visits| && y < |visits|
    ensures NameOf(names, visits, x) == NameOf(names, visits, y) <==>
      PlaceOf(names, visits, x) == PlaceOf(names, visits, y)
  {
    assert names(PlaceOf(names, visits, x)) == names(PlaceOf(names, visits, y)) ==>
      PlaceOf(names, visits, x) == PlaceOf(names, visits, y);
  }

  /** The names in the order the places use them up. */
  lemma PlaceNames()
    ensures PoolName(0) == "i" && PoolName(1) == "j" && PoolName(17) == "z" && PoolName(18) == "a18" &&
      PoolName(120) == "a120"
  {
    assert NatText(18) == "18" && NatText(120) == "120";
  }

  // ---------------------------------------------------------------------------------------------
  // Renaming

  /** The loops of a renamed statement, in order: variables, bounds and tiles of the old ones under the new
      names; a tile named after its variable follows it. */
  ghost predicate LoopFollows(l: Stmt, l': Stmt, rho: map<Name, Name>) {
    && l.Loop? && l'.Loop? && l'.loopVar == Renamed(rho, l.loopVar)
    && (forall v :: l.start == VarRef(v) ==> l'.start == VarRef(Renamed(rho, v)))
    && (forall v :: l.end == VarRef(v) ==> l'.end == VarRef(Renamed(rho, v)))
    && (l.start.Num? ==> l'.start == l.start) && (l.end.Num? ==> l'.end == l.end)
    && ("tile_" <= l.tile ==> l'.tile == "tile_" + l'.loopVar) && (!("tile_" <= l.tile) ==> l'.tile == l.tile)
  }

  ghost predicate LoopsFollow(ls: seq<Stmt>, ls': seq<Stmt>, rho: map<Name, Name>) {
    |ls| == |ls'| && forall k :: 0 <= k < |ls| ==> LoopFollows(ls[k], ls'[k], rho)
  }

  lemma FollowBoth(a: seq<Stmt>, a': seq<Stmt>, b: seq<Stmt>, b': seq<Stmt>, rho: map<Name, Name>)
    requires LoopsFollow(a, a', rho) && LoopsFollow(b, b', rho)
    ensures LoopsFollow(a + b, a' + b', rho)
  {
    forall k | 0 <= k < |a + b| ensures LoopFollows((a + b)[k], (a' + b')[k], rho) {
      if k >= |a| { assert (a + b)[k] == b[k - |a|] && (a' + b')[k] == b'[k - |a|]; }
    }
  }

  lemma LoopRenamed(s: Stmt, rho: map<Name, Name>, full: bool)
    requires s.Loop?
    ensures LoopsFollow([s], [Rename(s, rho, full)], rho)
  {
    assert "tile_" <= s.tile <==> |s.tile| >= 5 && s.tile[..5] == "tile_";
    assert LoopFollows(s, Rename(s, rho, full), rho);
  }

  lemma {:induction false} RenamedLoops(s: Stmt, rho: map<Name, Name>, full: bool)
    ensures LoopsFollow(LoopsOf(s), LoopsOf(Rename(s, rho, full)), rho)
    decreases s
  {
    match s
    case Store(_, _, _) =>
    case Loop(_, _, _, _, b) =>
      RenamedLoops(b, rho, full);
      LoopRenamed(s, rho, full);
      FollowBoth([s], [Rename(s, rho, full)], LoopsOf(b), LoopsOf(Rename(b, rho, full)), rho);
    case Seq(l, r) =>
      RenamedLoops(l, rho, full);
      RenamedLoops(r, rho, full);
      FollowBoth(LoopsOf(l), LoopsOf(Rename(l, rho, full)), LoopsOf(r), LoopsOf(Rename(r, rho, full)), rho);
    case Block(ss) => RenamedLoopsAll(ss, rho, full);
  }

  lemma {:induction false} RenamedLoopsAll(ss: seq<Stmt>, rho: map<Name, Name>, full: bool)
    ensures LoopsFollow(LoopsOfAll(ss), LoopsOfAll(RenameAll(ss, rho, full)), rho)
    decreases ss
  {
    if ss != [] {
      RenamedLoops(ss[0], rho, full);
      RenamedLoopsAll(ss[1..], rho, full);
      var rest := RenameAll(ss[1..], rho, full);
      assert RenameAll(ss, rho, full) == [Rename(ss[0], rho, full)] + rest;
      assert RenameAll(ss, rho, full)[1..] == rest;
      FollowBoth(LoopsOf(ss[0]), LoopsOf(Rename(ss[0], rho, full)), LoopsOfAll(ss[1..]), LoopsOfAll(rest), rho);
    }
  }
}
