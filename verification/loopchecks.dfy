/** What the dependency checks decide, store by store and load by load (optimizer/src/dependency.rs, utils.rs),
    and so when the loop and sequence rules apply and to what. */
module LoopChecks {
  import opened Ast
  import opened Text
  import opened Reordering
  import opened LoopRules
  import opened SeqRules

  // ---------------------------------------------------------------------------------------------
  // The accesses of a body

  /** The stores of a statement, wherever they stand. */
  function StoresIn(s: Stmt): seq<Stmt> {
    match s
    case Store(_, _, _) => [s]
    case Loop(_, _, _, _, b) => StoresIn(b)
    case Seq(l, r) => StoresIn(l) + StoresIn(r)
    case Block(ss) => StoresInAll(ss)
  }

  function StoresInAll(ss: seq<Stmt>): seq<Stmt>
    decreases ss
  {
    if ss == [] then [] else StoresIn(ss[0]) + StoresInAll(ss[1..])
  }

  /** The load stands somewhere in the expression. */
  ghost predicate LoadIn(e: Expr, t: Name, ix: Index) {
    e == Load(t, ix) || (e.Op? && exists a :: a in e.args && LoadIn(a, t, ix))
  }

  ghost predicate Writes(s: Stmt, t: Name, ix: Index) {
    exists c :: c in StoresIn(s) && c.Store? && c.tensor == t && c.index == ix
  }

  ghost predicate Reads(s: Stmt, t: Name, ix: Index) {
    exists c :: c in StoresIn(s) && c.Store? && LoadIn(c.value, t, ix)
  }

  lemma {:induction false} LoadsAre(e: Expr, t: Name, ix: Index)
    ensures (t, ix) in LoadAccesses(e) <==> LoadIn(e, t, ix)
  {
    match e
    case Op(_, args) =>
      forall a | a in args ensures (t, ix) in LoadAccesses(a) <==> LoadIn(a, t, ix) { LoadsAre(a, t, ix); }
    case _ =>
  }

  lemma WritesBoth(l: seq<Stmt>, r: seq<Stmt>, c: Stmt)
    ensures c in l + r <==> c in l || c in r
  {
  }

  /** The access sets hold exactly the stores and the loads of the body. */
  lemma {:induction false} AccessesAre(s: Stmt, t: Name, ix: Index)
    ensures (t, ix) in WriteSet(s) <==> Writes(s, t, ix)
    ensures (t, ix) in ReadSet(s) <==> Reads(s, t, ix)
    decreases s
  {
    match s
    case Store(_, v, _) =>
      LoadsAre(v, t, ix);
      assert s in StoresIn(s);
    case Loop(_, _, _, _, b) => AccessesAre(b, t, ix);
    case Seq(l, r) =>
      AccessesAre(l, t, ix);
      AccessesAre(r, t, ix);
      forall c ensures c in StoresIn(s) <==> c in StoresIn(l) || c in StoresIn(r) {
        WritesBoth(StoresIn(l), StoresIn(r), c);
      }
    case Block(ss) => AllAccessesAre(ss, t, ix);
  }

  lemma {:induction false} AllAccessesAre(ss: seq<Stmt>, t: Name, ix: Index)
    ensures (t, ix) in WriteSet(Block(ss)) <==> Writes(Block(ss), t, ix)
    ensures (t, ix) in ReadSet(Block(ss)) <==> Reads(Block(ss), t, ix)
    decreases ss
  {
    if ss != [] {
      AccessesAre(ss[0], t, ix);
      AllAccessesAre(ss[1..], t, ix);
      forall c ensures c in StoresInAll(ss) <==> c in StoresIn(ss[0]) || c in StoresInAll(ss[1..]) {
        WritesBoth(StoresIn(ss[0]), StoresInAll(ss[1..]), c);
      }
      assert forall c :: c in ss <==> c == ss[0] || c in ss[1..];
      assert StoresIn(Block(ss)) == StoresInAll(ss) && StoresIn(Block(ss[1..])) == StoresInAll(ss[1..]);
    }
  }

  // ---------------------------------------------------------------------------------------------
  // The checks

  /** Two names, joined or not, have a component in common. */
  ghost predicate Meet(t: Name, u: Name) { exists n :: n in SplitNames(t) && n in SplitNames(u) }

  /** The lengths differ, or in some dimension both are tiles, or both elements, of different variables. */
  predicate Differ(ix: Index, jx: Index) {
    |ix| != |jx| || exists d ::
      0 <= d < |ix| && ((ix[d].Tile? && jx[d].Tile?) || (ix[d].Elem? && jx[d].Elem?)) && ix[d].name != jx[d].name
  }

  predicate Names(ix: Index, x: Name) { exists d :: 0 <= d < |ix| && (ix[d].Tile? || ix[d].Elem?) && ix[d].name == x }

  /** What stops the loop rules: the second body reads what the first stores, at a different index, or at one that
      does not name the loop variable while some load of the first body does. */
  ghost predicate RawHazard(b1: Stmt, b2: Stmt, x: Name) {
    exists t, ix, u, jx :: RawAt(b1, b2, x, t, ix, u, jx)
  }

  ghost predicate RawAt(b1: Stmt, b2: Stmt, x: Name, t: Name, ix: Index, u: Name, jx: Index) {
    Writes(b1, t, ix) && Reads(b2, u, jx) && Meet(t, u) && (Differ(ix, jx) || (!Names(ix, x) && LoadNames(b1, x)))
  }

  ghost predicate LoadNames(s: Stmt, x: Name) { exists t, ix :: Reads(s, t, ix) && Names(ix, x) }

  lemma IndicesMatchIff(ix: Index, jx: Index)
    ensures IndicesMatch(ix, jx) <==> !Differ(ix, jx)
    ensures IndicesMatch(ix, jx) <==> IndicesMatch(jx, ix)
  {
  }

  lemma DependsIff(ix: Index, x: Name)
    ensures DependsOn(ix, x) <==> Names(ix, x)
  {
    if d :| 0 <= d < |ix| && (ix[d].Tile? || ix[d].Elem?) && ix[d].name == x {
      assert ix[d] == Tile(x) || ix[d] == Elem(x);
    }
    if d :| 0 <= d < |ix| && (ix[d] == Tile(x) || ix[d] == Elem(x)) { assert Names(ix, x); }
  }

  lemma LoadNamesIff(s: Stmt, x: Name)
    ensures (exists p :: p in ReadSet(s) && DependsOn(p.1, x)) <==> LoadNames(s, x)
  {
    if p :| p in ReadSet(s) && DependsOn(p.1, x) {
      AccessesAre(s, p.0, p.1);
      DependsIff(p.1, x);
      assert Reads(s, p.0, p.1) && Names(p.1, x);
    }
    if t, ix :| Reads(s, t, ix) && Names(ix, x) {
      AccessesAre(s, t, ix);
      DependsIff(ix, x);
      assert (t, ix) in ReadSet(s) && DependsOn((t, ix).1, x);
    }
  }

  /** The check of the loop rules passes exactly when there is no such hazard. */
  lemma NoRawIff(b1: Stmt, b2: Stmt, x: Name)
    ensures NoRawDependency(b1, b2, x) <==> !RawHazard(b1, b2, x)
  {
    if t, ix, u, jx :| RawAt(b1, b2, x, t, ix, u, jx) { HazardStops(b1, b2, x, t, ix, u, jx); }
    if !NoRawDependency(b1, b2, x) { StoppedHazard(b1, b2, x); }
  }

  lemma HazardStops(b1: Stmt, b2: Stmt, x: Name, t: Name, ix: Index, u: Name, jx: Index)
    requires RawAt(b1, b2, x, t, ix, u, jx)
    ensures !NoRawDependency(b1, b2, x)
  {
    LoadNamesIff(b1, x);
    AccessesAre(b1, t, ix);
    AccessesAre(b2, u, jx);
    IndicesMatchIff(ix, jx);
    DependsIff(ix, x);
    var r, w := (u, jx), (t, ix);
    assert r in ReadSet(b2) && w in WriteSet(b1) && BasesOverlap(r.0, w.0);
  }

  lemma StoppedHazard(b1: Stmt, b2: Stmt, x: Name)
    requires !NoRawDependency(b1, b2, x)
    ensures RawHazard(b1, b2, x)
  {
    LoadNamesIff(b1, x);
    var r, w :| r in ReadSet(b2) && w in WriteSet(b1) && BasesOverlap(r.0, w.0) &&
      !(IndicesMatch(r.1, w.1) && (DependsOn(w.1, x) || forall p :: p in ReadSet(b1) ==> !DependsOn(p.1, x)));
    AccessesAre(b1, w.0, w.1);
    AccessesAre(b2, r.0, r.1);
    IndicesMatchIff(w.1, r.1);
    DependsIff(w.1, x);
    assert Meet(w.0, r.0);
    assert RawAt(b1, b2, x, w.0, w.1, r.0, r.1);
  }

  /** A component that the statement stores, or loads, under a joined name or alone. */
  ghost predicate Stores(s: Stmt, n: Name) { exists t :: t in StmtStores(s) && n in SplitNames(t) }

  ghost predicate LoadsName(s: Stmt, n: Name) { exists t :: t in StmtLoads(s) && n in SplitNames(t) }

  lemma {:induction false} NamesOfReads(e: Expr, t: Name)
    ensures t in Ast.Loads(e) <==> exists ix :: (t, ix) in LoadAccesses(e)
  {
    match e
    case Load(u, ix) => assert (u, ix) in LoadAccesses(e);
    case Op(_, args) =>
      forall a | a in args
        ensures t in Ast.Loads(a) <==> exists ix :: (t, ix) in LoadAccesses(a)
      {
        NamesOfReads(a, t);
      }
    case _ =>
  }

  lemma {:induction false} NamesOfAccesses(s: Stmt, t: Name)
    ensures t in StmtStores(s) <==> exists ix :: (t, ix) in WriteSet(s)
    ensures t in StmtLoads(s) <==> exists ix :: (t, ix) in ReadSet(s)
  {
    match s
    case Store(u, v, ix) =>
      NamesOfReads(v, t);
      assert (u, ix) in WriteSet(s);
    case Loop(_, _, _, _, b) => NamesOfAccesses(b, t);
    case Seq(l, r) =>
      NamesOfAccesses(l, t);
      NamesOfAccesses(r, t);
    case Block(ss) =>
      forall c | c in ss
        ensures t in StmtStores(c) <==> exists ix :: (t, ix) in WriteSet(c)
        ensures t in StmtLoads(c) <==> exists ix :: (t, ix) in ReadSet(c)
      {
        NamesOfAccesses(c, t);
      }
  }

  ghost predicate Depend(a: Stmt, b: Stmt, n: Name) {
    (Stores(a, n) && (Stores(b, n) || LoadsName(b, n))) || (LoadsName(a, n) && Stores(b, n))
  }

  /** Neighbours may be exchanged exactly when neither is a sequence and there is no component that one stores and
      the other stores or loads. */
  lemma ExchangeableIff(a: Stmt, b: Stmt)
    ensures Exchangeable(a, b) <==> !a.Seq? && !b.Seq? && forall n :: !Depend(a, b, n)
  {
    if n :| Depend(a, b, n) { SharedStops(a, b, n); }
    if !NoAllDependency(a, b) { var n := StoppedShares(a, b); }
  }

  lemma SharedStops(a: Stmt, b: Stmt, n: Name)
    requires Depend(a, b, n)
    ensures !NoAllDependency(a, b)
  {
    if Stores(a, n) {
      var w := StoreOf(a, n);
      if Stores(b, n) {
        var v := StoreOf(b, n);
        assert BasesOverlap(w.0, v.0);
      } else {
        var r := LoadOf(b, n);
        assert BasesOverlap(r.0, w.0);
      }
    } else {
      var r := LoadOf(a, n);
      var w := StoreOf(b, n);
      assert BasesOverlap(r.0, w.0);
    }
  }

  lemma StoppedShares(a: Stmt, b: Stmt) returns (n: Name)
    requires !NoAllDependency(a, b)
    ensures Depend(a, b, n)
  {
    if r, w :| r in ReadSet(b) && w in WriteSet(a) && BasesOverlap(r.0, w.0) {
      n := Component(r.0, w.0);
      LoadedAt(b, r, n);
      StoredAt(a, w, n);
    } else if r, w :| r in ReadSet(a) && w in WriteSet(b) && BasesOverlap(r.0, w.0) {
      n := Component(r.0, w.0);
      LoadedAt(a, r, n);
      StoredAt(b, w, n);
    } else {
      var v, w :| v in WriteSet(a) && w in WriteSet(b) && BasesOverlap(v.0, w.0);
      n := Component(v.0, w.0);
      StoredAt(a, v, n);
      StoredAt(b, w, n);
    }
  }

  lemma Component(t: Name, u: Name) returns (n: Name)
    requires BasesOverlap(t, u)
    ensures n in SplitNames(t) && n in SplitNames(u)
  {
    n :| n in SplitNames(t) && n in SplitNames(u);
  }

  lemma StoredAt(s: Stmt, p: LoopRules.Access, n: Name)
    requires p in WriteSet(s) && n in SplitNames(p.0)
    ensures Stores(s, n)
  {
    assert p == (p.0, p.1);
    NamesOfAccesses(s, p.0);
  }

  lemma LoadedAt(s: Stmt, p: LoopRules.Access, n: Name)
    requires p in ReadSet(s) && n in SplitNames(p.0)
    ensures LoadsName(s, n)
  {
    assert p == (p.0, p.1);
    NamesOfAccesses(s, p.0);
  }

  lemma StoreOf(s: Stmt, n: Name) returns (p: LoopRules.Access)
    requires Stores(s, n)
    ensures p in WriteSet(s) && n in SplitNames(p.0)
  {
    var t :| t in StmtStores(s) && n in SplitNames(t);
    NamesOfAccesses(s, t);
    var ix :| (t, ix) in WriteSet(s);
    p := (t, ix);
  }

  lemma LoadOf(s: Stmt, n: Name) returns (p: LoopRules.Access)
    requires LoadsName(s, n)
    ensures p in ReadSet(s) && n in SplitNames(p.0)
  {
    var t :| t in StmtLoads(s) && n in SplitNames(t);
    NamesOfAccesses(s, t);
    var ix :| (t, ix) in ReadSet(s);
    p := (t, ix);
  }

  // ---------------------------------------------------------------------------------------------
  // When a rule applies, and what it gives

  /** A loop over two bodies and the two loops it splits into. */
  predicate SplitInto(s: Stmt, t: Stmt) {
    && s.Loop? && s.body.Seq? && s.start == Num(0) && t.Seq? && t.left.Loop? && t.right.Loop?
    && t.left == s.(body := s.body.left) && t.right == s.(body := s.body.right)
  }

  /** Fission applies exactly to a loop from 0 over two bodies without the hazard. */
  lemma FissionIff(s: Stmt, t: Stmt)
    ensures Fission(s) == Some(t) <==> SplitInto(s, t) && !RawHazard(s.body.left, s.body.right, s.loopVar)
  {
    if s.Loop? && s.body.Seq? { NoRawIff(s.body.left, s.body.right, s.loopVar); }
  }

  lemma FissionTailIff(s: Stmt, t: Stmt)
    ensures FissionTail(s) == Some(t) <==>
      && s.Seq? && t.Seq? && t.right.Seq? && t.right.right == s.right
      && SplitInto(s.left, Seq(t.left, t.right.left))
      && !RawHazard(s.left.body.left, s.left.body.right, s.left.loopVar)
  {
    if s.Seq? {
      if t.Seq? && t.right.Seq? { FissionIff(s.left, Seq(t.left, t.right.left)); }
      match Fission(s.left)
      case Some(both) => FissionIff(s.left, both);
      case None =>
    }
  }

  predicate Numeric(tile: string) { tile != [] && forall c :: c in tile ==> '0' <= c <= '9' }

  /** Two loops of one range and variable, and the loop over both bodies, with the second tile where only that is a
      number and the first otherwise. */
  predicate JoinInto(l1: Stmt, l2: Stmt, t: Stmt) {
    && l1.Loop? && l2.Loop? && l1.start == l2.start && l1.end == l2.end && l1.loopVar == l2.loopVar
    && t.Loop? && t.start == l1.start && t.end == l1.end && t.loopVar == l1.loopVar && t.body == Seq(l1.body, l2.body)
    && (Numeric(l2.tile) && !Numeric(l1.tile) ==> t.tile == l2.tile)
    && (Numeric(l1.tile) || !Numeric(l2.tile) ==> t.tile == l1.tile)
  }

  /** Fusion applies exactly to such loops without the hazard. */
  lemma FuseLoopsIff(s: Stmt, t: Stmt)
    ensures FuseLoops(s) == Some(t) <==>
      s.Seq? && JoinInto(s.left, s.right, t) && !RawHazard(s.left.body, s.right.body, s.left.loopVar)
  {
    if s.Seq? && s.left.Loop? && s.right.Loop? { NoRawIff(s.left.body, s.right.body, s.left.loopVar); }
  }

  lemma FuseLoopsTailIff(s: Stmt, t: Stmt)
    ensures FuseLoopsTail(s) == Some(t) <==>
      && s.Seq? && s.right.Seq? && t.Seq? && t.right == s.right.right
      && JoinInto(s.left, s.right.left, t.left) && !RawHazard(s.left.body, s.right.left.body, s.left.loopVar)
  {
    if s.Seq? && s.right.Seq? {
      var pair := Seq(s.left, s.right.left);
      if t.Seq? { FuseLoopsIff(pair, t.left); }
      match FuseLoops(pair)
      case Some(fused) => FuseLoopsIff(pair, fused);
      case None =>
    }
  }
}
