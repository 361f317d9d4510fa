/** Any chain of the optimizer's rules on a whole program (optimizer/src/rules.rs). */
module TreeRules {
  import opened Ast
  import opened Text
  import opened LoopNames
  import opened Machines
  import opened Reordering
  import opened Signatures
  import opened LoopRules
  import opened SeqRules
  import Fusion

  // Rules exchange neighbours, split loops and fuse them, at any place of the tree of nodes and inside the
  // bodies of loops.  Nodes carry joined names, so every rule is shown for the members a node runs.
  // Main result: OptimizedProgramPreserves, from the calls to the optimized program.

  // ---------------------------------------------------------------------------------------------
  // Hazards of the members

  /** Every access of a member is a component of one of the node, at the same index. */
  ghost predicate FromNode(member: set<Access>, node: set<Access>, k: nat) {
    forall p :: p in member ==> exists t :: (t, p.1) in node && p.0 == Component(t, k)
  }

  lemma {:induction false} LaneReads(e: Expr, k: nat)
    ensures FromNode(LoadAccesses(LaneExpr(e, k)), LoadAccesses(e), k)
    decreases e, 1
  {
    match e
    case Load(t, ix) => assert (t, ix) in LoadAccesses(e);
    case Op(op, args) =>
      LaneArgReads(args, k);
      forall p | p in LoadAccesses(LaneExpr(e, k))
        ensures exists t :: (t, p.1) in LoadAccesses(e) && p.0 == Component(t, k)
      {
        var a :| a in LaneExprs(args, k) && p in LoadAccesses(a);
        var j :| 0 <= j < |args| && LaneExprs(args, k)[j] == a;
        assert FromNode(LoadAccesses(a), LoadAccesses(args[j]), k);
        var t :| (t, p.1) in LoadAccesses(args[j]) && p.0 == Component(t, k);
        assert args[j] in args;
        assert (t, p.1) in LoadAccesses(e);
      }
    case _ =>
  }

  lemma {:induction false} LaneArgReads(args: seq<Expr>, k: nat)
    ensures forall j :: 0 <= j < |args| ==> FromNode(LoadAccesses(LaneExprs(args, k)[j]), LoadAccesses(args[j]), k)
    decreases args, 0
  {
    if args != [] {
      LaneReads(args[0], k);
      LaneArgReads(args[1..], k);
      forall j | 0 <= j < |args| ensures FromNode(LoadAccesses(LaneExprs(args, k)[j]), LoadAccesses(args[j]), k) {
        if j > 0 { assert LaneExprs(args, k)[j] == LaneExprs(args[1..], k)[j - 1] && args[j] == args[1..][j - 1]; }
      }
    }
  }

  lemma FromLarger(member: set<Access>, node: set<Access>, more: set<Access>, k: nat)
    requires FromNode(member, node, k) && node <= more
    ensures FromNode(member, more, k)
  {
    forall p | p in member ensures exists t :: (t, p.1) in more && p.0 == Component(t, k) {
      var t :| (t, p.1) in node && p.0 == Component(t, k);
    }
  }

  lemma FromBoth(a: set<Access>, b: set<Access>, node: set<Access>, other: set<Access>, k: nat)
    requires FromNode(a, node, k) && FromNode(b, other, k)
    ensures FromNode(a + b, node + other, k)
  {
    FromLarger(a, node, node + other, k);
    FromLarger(b, other, node + other, k);
  }

  lemma {:induction false} LaneAccesses(s: Stmt, k: nat)
    ensures FromNode(ReadSet(Lane(s, k)), ReadSet(s), k) && FromNode(WriteSet(Lane(s, k)), WriteSet(s), k)
    decreases s, 1
  {
    match s
    case Store(t, v, ix) =>
      LaneReads(v, k);
      assert (t, ix) in WriteSet(s);
    case Loop(_, _, _, _, b) => LaneAccesses(b, k);
    case Seq(l, r) =>
      LaneAccesses(l, k);
      LaneAccesses(r, k);
      FromBoth(ReadSet(Lane(l, k)), ReadSet(Lane(r, k)), ReadSet(l), ReadSet(r), k);
      FromBoth(WriteSet(Lane(l, k)), WriteSet(Lane(r, k)), WriteSet(l), WriteSet(r), k);
    case Block(ss) => LaneAllAccesses(ss, k, s);
  }

  lemma {:induction false} LaneAllAccesses(ss: seq<Stmt>, k: nat, whole: Stmt)
    requires whole.Block? && forall c :: c in ss ==> c in whole.stmts
    ensures forall c :: c in LaneAll(ss, k) ==>
      FromNode(ReadSet(c), ReadSet(whole), k) && FromNode(WriteSet(c), WriteSet(whole), k)
    decreases ss, 0
  {
    if ss != [] {
      LaneAccesses(ss[0], k);
      assert ss[0] in whole.stmts;
      FromLarger(ReadSet(Lane(ss[0], k)), ReadSet(ss[0]), ReadSet(whole), k);
      FromLarger(WriteSet(Lane(ss[0], k)), WriteSet(ss[0]), WriteSet(whole), k);
      LaneAllAccesses(ss[1..], k, whole);
    }
  }

  lemma {:induction false} AccessedNames(s: Stmt)
    ensures forall p :: p in ReadSet(s) ==> p.0 in StmtLoads(s)
    ensures forall p :: p in WriteSet(s) ==> p.0 in StmtStores(s)
  {
    match s
    case Store(_, v, _) => AccessesAreLoads(v);
    case Loop(_, _, _, _, b) => AccessedNames(b);
    case Seq(l, r) => AccessedNames(l); AccessedNames(r);
    case Block(ss) =>
      forall c | c in ss
        ensures (forall p :: p in ReadSet(c) ==> p.0 in StmtLoads(c)) && forall p :: p in WriteSet(c) ==>
          p.0 in StmtStores(c)
      {
        AccessedNames(c);
      }
  }

  lemma {:induction false} PartsAreSingle(s: string)
    ensures forall n :: n in SplitNames(s) ==> OneName(n)
  {
    if s != [] {
      var rest := SplitNames(s[1..]);
      PartsAreSingle(s[1..]);
      assert rest[0] in rest;
      assert forall n :: n in rest[1..] ==> n in rest;
    }
  }

  /** Names that overlap in a member come from names that overlap in the node. */
  lemma OverlapInNode(t: Name, u: Name, k: nat)
    requires Component(t, k) != "" && Component(u, k) != "" && BasesOverlap(Component(t, k), Component(u, k))
    ensures BasesOverlap(t, u)
  {
    var n :| n in SplitNames(Component(t, k)) && n in SplitNames(Component(u, k));
    PartsAreSingle(t);
    PartsAreSingle(u);
    assert Component(t, k) in SplitNames(t) && Component(u, k) in SplitNames(u);
    SplitOne(Component(t, k));
    SplitOne(Component(u, k));
    assert n == Component(t, k) == Component(u, k);
  }

  lemma {:induction false} LaneLoops(s: Stmt, k: nat)
    ensures LoopVars(Lane(s, k)) == LoopVars(s)
    decreases s, 1
  {
    match s
    case Store(_, _, _) =>
    case Loop(_, _, _, _, b) => LaneLoops(b, k);
    case Seq(l, r) => LaneLoops(l, k); LaneLoops(r, k);
    case Block(ss) => LaneAllLoops(ss, k);
  }

  lemma {:induction false} LaneAllLoops(ss: seq<Stmt>, k: nat)
    ensures LoopVars(Block(LaneAll(ss, k))) == LoopVars(Block(ss))
    decreases ss, 0
  {
    if ss != [] {
      LaneLoops(ss[0], k);
      LaneAllLoops(ss[1..], k);
      BlockLoops(ss[0], ss[1..]);
      BlockLoops(Lane(ss[0], k), LaneAll(ss[1..], k));
      assert [ss[0]] + ss[1..] == ss;
    }
  }

  lemma BlockLoops(c: Stmt, cs: seq<Stmt>)
    ensures LoopVars(Block([c] + cs)) == LoopVars(c) + LoopVars(Block(cs))
  {
    var all := [c] + cs;
    assert forall d :: d in all <==> d == c || d in cs;
  }

  /** A member with what it accesses, all of it named. */
  lemma MemberAccesses(s: Stmt, k: nat)
    requires ProperAt(s, k)
    ensures FromNode(ReadSet(Lane(s, k)), ReadSet(s), k) && FromNode(WriteSet(Lane(s, k)), WriteSet(s), k)
    ensures forall p :: p in ReadSet(Lane(s, k)) || p in WriteSet(Lane(s, k)) ==> p.0 != ""
  {
    LaneAccesses(s, k);
    AccessedNames(Lane(s, k));
  }

  lemma MemberWritesCarry(b1: Stmt, b2: Stmt, x: Name, k: nat)
    requires HazardsCarried(b1, b2, x) && ProperAt(b1, k) && ProperAt(b2, k)
    ensures forall w, p ::
      w in WriteSet(Lane(b1, k)) && p in ReadSet(Lane(b2, k)) + WriteSet(Lane(b2, k)) && BasesOverlap(w.0, p.0) ==>
      Carried(w.1, p.1, x)
  {
    MemberAccesses(b1, k);
    MemberAccesses(b2, k);
    FromBoth(ReadSet(Lane(b2, k)), WriteSet(Lane(b2, k)), ReadSet(b2), WriteSet(b2), k);
    WritesCarry(WriteSet(Lane(b1, k)), ReadSet(Lane(b2, k)) + WriteSet(Lane(b2, k)), WriteSet(b1),
      ReadSet(b2) + WriteSet(b2), x, k);
  }

  lemma MemberReadsCarry(b1: Stmt, b2: Stmt, x: Name, k: nat)
    requires HazardsCarried(b1, b2, x) && ProperAt(b1, k) && ProperAt(b2, k)
    ensures forall r, w :: r in ReadSet(Lane(b1, k)) && w in WriteSet(Lane(b2, k)) && BasesOverlap(r.0, w.0) ==>
      Carried(r.1, w.1, x)
  {
    MemberAccesses(b1, k);
    MemberAccesses(b2, k);
    WritesCarry(ReadSet(Lane(b1, k)), WriteSet(Lane(b2, k)), ReadSet(b1), WriteSet(b2), x, k);
  }

  /** Hazards that are carried in the node are carried in every member. */
  lemma MembersCarry(b1: Stmt, b2: Stmt, x: Name, k: nat)
    requires SafeBodies(b1, b2, x) && ProperAt(b1, k) && ProperAt(b2, k)
    ensures SafeBodies(Lane(b1, k), Lane(b2, k), x)
  {
    LaneLoops(b1, k);
    LaneLoops(b2, k);
    MemberWritesCarry(b1, b2, x, k);
    MemberReadsCarry(b1, b2, x, k);
  }

  /** Accesses of members that meet are carried as those of the node are. */
  lemma WritesCarry(ms: set<Access>, ns: set<Access>, ps: set<Access>, qs: set<Access>, x: Name, k: nat)
    requires FromNode(ms, ps, k) && FromNode(ns, qs, k) && (forall m :: m in ms ==> m.0 != "") &&
      forall n :: n in ns ==> n.0 != ""
    requires forall p, q :: p in ps && q in qs && BasesOverlap(p.0, q.0) ==> Carried(p.1, q.1, x)
    ensures forall m, n :: m in ms && n in ns && BasesOverlap(m.0, n.0) ==> Carried(m.1, n.1, x)
  {
    forall m, n | m in ms && n in ns && BasesOverlap(m.0, n.0) ensures Carried(m.1, n.1, x) {
      var t :| (t, m.1) in ps && m.0 == Component(t, k);
      var u :| (u, n.1) in qs && n.0 == Component(u, k);
      OverlapInNode(t, u, k);
      var p, q := (t, m.1), (u, n.1);
      assert p in ps && q in qs && BasesOverlap(p.0, q.0);
    }
  }

  // ---------------------------------------------------------------------------------------------
  // The rules on one statement

  ghost predicate Splits(s: Stmt, t: Stmt) {
    Fission(s) == Some(t) && SafeBodies(s.body.left, s.body.right, s.loopVar)
  }

  ghost predicate Fuses(size: string -> pos, s: Stmt, t: Stmt) {
    FuseLoops(s) == Some(t) && size(s.left.tile) == size(s.right.tile) &&
      SafeBodies(s.left.body, s.right.body, s.left.loopVar)
  }

  predicate Swaps(s: Stmt, t: Stmt) { s.Seq? && Exchangeable(s.left, s.right) && t == Seq(s.right, s.left) }

  /** One of the rules at this place: on the statement, or, as its tail form does, on the first two of three. */
  ghost predicate Rearranges(size: string -> pos, s: Stmt, t: Stmt) { Swaps(s, t) || Splits(s, t) || Fuses(size, s, t) }

  ghost predicate TailRearranges(size: string -> pos, s: Stmt, t: Stmt) {
    || (s.Seq? && s.right.Seq? && t.Seq? && t.right.Seq? && t.right.right == s.right.right &&
      Swaps(Seq(s.left, s.right.left), Seq(t.left, t.right.left)))
    || (FissionTail(s) == Some(t) && SafeBodies(s.left.body.left, s.left.body.right, s.left.loopVar))
    || (FuseLoopsTail(s) == Some(t) && Fuses(size, Seq(s.left, s.right.left), t.left))
  }

  /** A rule anywhere inside a statement. */
  ghost predicate Changes(size: string -> pos, s: Stmt, t: Stmt)
    decreases s
  {
    || Rearranges(size, s, t) || TailRearranges(size, s, t)
    || (s.Seq? && t.Seq? && t.right == s.right && Changes(size, s.left, t.left))
    || (s.Seq? && t.Seq? && t.left == s.left && Changes(size, s.right, t.right))
    || (s.Loop? && t.Loop? && t == Loop(s.start, s.end, s.tile, s.loopVar, t.body) && Changes(size, s.body, t.body))
  }

  /** The member does the same, to the same tensors. */
  ghost predicate SameMember<C(!new), V(!new)>(M: Machine<C, V>, s: Stmt, t: Stmt) {
    && StmtLoads(t) == StmtLoads(s) && StmtStores(t) == StmtStores(s)
    && forall env, mem: Mem<C> :: Exec(M, t, env, mem) == Exec(M, s, env, mem)
  }

  lemma ProperParts(s: Stmt, k: nat)
    requires ProperAt(s, k)
    ensures s.Seq? ==> ProperAt(s.left, k) && ProperAt(s.right, k)
    ensures s.Loop? ==> ProperAt(s.body, k)
  {
  }

  lemma SwapsAt<C(!new), V(!new)>(M: Machine<C, V>, s: Stmt, t: Stmt, k: nat)
    requires Swaps(s, t) && ProperAt(s, k)
    ensures SameMember(M, Lane(s, k), Lane(t, k))
  {
    ProperParts(s, k);
    LanesApart(s.left, s.right, k, k);
    forall env, mem: Mem<C> ensures Exec(M, Lane(t, k), env, mem) == Exec(M, Lane(s, k), env, mem) {
      SwapStatements(M, Lane(s.left, k), Lane(s.right, k), env, mem);
    }
  }

  lemma SplitsAt<C(!new), V(!new)>(M: Machine<C, V>, s: Stmt, t: Stmt, k: nat)
    requires KeepsRegionsApart(M) && Splits(s, t) && ProperAt(s, k)
    ensures SameMember(M, Lane(s, k), Lane(t, k))
  {
    var b1, b2 := s.body.left, s.body.right;
    ProperParts(s, k);
    ProperParts(s.body, k);
    MembersCarry(b1, b2, s.loopVar, k);
    forall env, mem: Mem<C> ensures Exec(M, Lane(t, k), env, mem) == Exec(M, Lane(s, k), env, mem) {
      LoopOverSeq(M, s.start, s.end, s.tile, s.loopVar, Lane(b1, k), Lane(b2, k), env, mem);
    }
  }

  lemma FusesAt<C(!new), V(!new)>(M: Machine<C, V>, s: Stmt, t: Stmt, k: nat)
    requires KeepsRegionsApart(M) && Fuses(M.tileSize, s, t) && ProperAt(s, k)
    ensures SameMember(M, Lane(s, k), Lane(t, k))
  {
    var l1, l2 := s.left, s.right;
    ProperParts(s, k);
    ProperParts(l1, k);
    ProperParts(l2, k);
    MembersCarry(l1.body, l2.body, l1.loopVar, k);
    forall env, mem: Mem<C> ensures Exec(M, Lane(t, k), env, mem) == Exec(M, Lane(s, k), env, mem) {
      LoopOverSeq(M, l1.start, l1.end, t.tile, l1.loopVar, Lane(l1.body, k), Lane(l2.body, k), env, mem);
    }
  }

  lemma RearrangesAt<C(!new), V(!new)>(M: Machine<C, V>, s: Stmt, t: Stmt, k: nat)
    requires KeepsRegionsApart(M) && Rearranges(M.tileSize, s, t) && ProperAt(s, k)
    ensures SameMember(M, Lane(s, k), Lane(t, k))
  {
    if Swaps(s, t) { SwapsAt(M, s, t, k); }
    else if Splits(s, t) { SplitsAt(M, s, t, k); }
    else { FusesAt(M, s, t, k); }
  }

  lemma TailSwapsAt<C(!new), V(!new)>(M: Machine<C, V>, s: Stmt, t: Stmt, k: nat)
    requires s.Seq? && s.right.Seq? && t.Seq? && t.right.Seq? && t.right.right == s.right.right
    requires Swaps(Seq(s.left, s.right.left), Seq(t.left, t.right.left)) && ProperAt(s, k)
    ensures SameMember(M, Lane(s, k), Lane(t, k))
  {
    ProperParts(s, k);
    ProperParts(s.right, k);
    var s2, t2 := Seq(s.left, s.right.left), Seq(t.left, t.right.left);
    SwapsAt(M, s2, t2, k);
    forall env, mem: Mem<C> ensures Exec(M, Lane(t, k), env, mem) == Exec(M, Lane(s, k), env, mem) {
      assert Exec(M, Lane(t2, k), env, mem) == Exec(M, Lane(s2, k), env, mem);
    }
  }

  lemma TailSplitsAt<C(!new), V(!new)>(M: Machine<C, V>, s: Stmt, t: Stmt, k: nat)
    requires KeepsRegionsApart(M) && FissionTail(s) == Some(t) &&
      SafeBodies(s.left.body.left, s.left.body.right, s.left.loopVar) && ProperAt(s, k)
    ensures SameMember(M, Lane(s, k), Lane(t, k))
  {
    ProperParts(s, k);
    var t2 := Seq(t.left, t.right.left);
    assert Splits(s.left, t2);
    SplitsAt(M, s.left, t2, k);
    forall env, mem: Mem<C> ensures Exec(M, Lane(t, k), env, mem) == Exec(M, Lane(s, k), env, mem) {
      assert Exec(M, Lane(t2, k), env, mem) == Exec(M, Lane(s.left, k), env, mem);
    }
  }

  lemma TailFusesAt<C(!new), V(!new)>(M: Machine<C, V>, s: Stmt, t: Stmt, k: nat)
    requires KeepsRegionsApart(M) && FuseLoopsTail(s) == Some(t) &&
      Fuses(M.tileSize, Seq(s.left, s.right.left), t.left) && ProperAt(s, k)
    ensures SameMember(M, Lane(s, k), Lane(t, k))
  {
    ProperParts(s, k);
    ProperParts(s.right, k);
    var s2 := Seq(s.left, s.right.left);
    FusesAt(M, s2, t.left, k);
    forall env, mem: Mem<C> ensures Exec(M, Lane(t, k), env, mem) == Exec(M, Lane(s, k), env, mem) {
      assert Exec(M, Lane(t.left, k), env, mem) == Exec(M, Lane(s2, k), env, mem);
    }
  }

  lemma TailRearrangesAt<C(!new), V(!new)>(M: Machine<C, V>, s: Stmt, t: Stmt, k: nat)
    requires KeepsRegionsApart(M) && TailRearranges(M.tileSize, s, t) && ProperAt(s, k)
    ensures SameMember(M, Lane(s, k), Lane(t, k))
  {
    if FissionTail(s) == Some(t) && SafeBodies(s.left.body.left, s.left.body.right, s.left.loopVar) {
      TailSplitsAt(M, s, t, k);
    }
    else if FuseLoopsTail(s) == Some(t) && Fuses(M.tileSize, Seq(s.left, s.right.left), t.left) {
      TailFusesAt(M, s, t, k);
    }
    else { TailSwapsAt(M, s, t, k); }
  }

  lemma SeqMember<C(!new), V(!new)>(M: Machine<C, V>, l: Stmt, r: Stmt, l': Stmt, r': Stmt)
    requires SameMember(M, l, l') && SameMember(M, r, r')
    ensures SameMember(M, Seq(l, r), Seq(l', r'))
  {
    forall env, mem: Mem<C> ensures Exec(M, Seq(l', r'), env, mem) == Exec(M, Seq(l, r), env, mem) {
      assert Exec(M, l', env, mem) == Exec(M, l, env, mem);
    }
  }

  lemma LoopMember<C(!new), V(!new)>(M: Machine<C, V>, loop: Stmt, b': Stmt)
    requires loop.Loop? && SameMember(M, loop.body, b')
    ensures SameMember(M, loop, Loop(loop.start, loop.end, loop.tile, loop.loopVar, b'))
  {
    forall env, mem: Mem<C>
      ensures Exec(M, Loop(loop.start, loop.end, loop.tile, loop.loopVar, b'), env, mem) == Exec(M, loop, env, mem)
    {
      RoundsMember(M, loop.body, b', loop.loopVar, M.tileSize(loop.tile), BoundValue(loop.start, env),
        BoundValue(loop.end, env), env, mem);
    }
  }

  lemma {:induction false} RoundsMember<C(!new), V(!new)>(M: Machine<C, V>, b: Stmt, b': Stmt, x: Name, step: pos,
      lo: int, hi: int, env: Env, mem: Mem<C>)
    requires SameMember(M, b, b')
    ensures Iterate(M, b', x, step, lo, hi, env, mem) == Iterate(M, b, x, step, lo, hi, env, mem)
    decreases if lo < hi then hi - lo else 0
  {
    if lo < hi {
      var env' := Bind(env, x, lo, step);
      assert Exec(M, b', env', mem) == Exec(M, b, env', mem);
      RoundsMember(M, b, b', x, step, lo + step, hi, env, Exec(M, b, env', mem));
    }
  }

  lemma SameItself<C(!new), V(!new)>(M: Machine<C, V>, s: Stmt)
    ensures SameMember(M, s, s)
  {
  }

  /** A rule anywhere inside a statement leaves what each member does. */
  lemma {:induction false} ChangesAt<C(!new), V(!new)>(M: Machine<C, V>, s: Stmt, t: Stmt, k: nat)
    requires KeepsRegionsApart(M) && Changes(M.tileSize, s, t) && ProperAt(s, k)
    ensures SameMember(M, Lane(s, k), Lane(t, k))
    decreases s
  {
    ProperParts(s, k);
    if Rearranges(M.tileSize, s, t) { RearrangesAt(M, s, t, k); }
    else if TailRearranges(M.tileSize, s, t) { TailRearrangesAt(M, s, t, k); }
    else if s.Seq? && t.Seq? && t.right == s.right && Changes(M.tileSize, s.left, t.left) {
      ChangesAt(M, s.left, t.left, k);
      SameItself(M, Lane(s.right, k));
      SeqMember(M, Lane(s.left, k), Lane(s.right, k), Lane(t.left, k), Lane(t.right, k));
    } else if s.Seq? {
      ChangesAt(M, s.right, t.right, k);
      SameItself(M, Lane(s.left, k));
      SeqMember(M, Lane(s.left, k), Lane(s.right, k), Lane(t.left, k), Lane(t.right, k));
    } else {
      ChangesAt(M, s.body, t.body, k);
      LoopMember(M, Lane(s, k), Lane(t.body, k));
    }
  }

  lemma RearrangedWidth(size: string -> pos, s: Stmt, t: Stmt)
    requires Rearranges(size, s, t)
    ensures Fusion.Width(t) == Fusion.Width(s)
  {
  }

  lemma TailRearrangedWidth(size: string -> pos, s: Stmt, t: Stmt)
    requires TailRearranges(size, s, t)
    ensures Fusion.Width(t) == Fusion.Width(s)
  {
    if FissionTail(s) == Some(t) { SplitTailWidth(s, t); }
    else if FuseLoopsTail(s) == Some(t) { FusedTailWidth(s, t); }
    else { SwappedTailWidth(s, t); }
  }

  lemma SplitTailWidth(s: Stmt, t: Stmt)
    requires FissionTail(s) == Some(t)
    ensures Fusion.Width(t) == Fusion.Width(s)
  {
    assert Fission(s.left) == Some(Seq(t.left, t.right.left)) && t.right.right == s.right;
    assert Fusion.Width(Seq(t.left, t.right.left)) == Fusion.Width(s.left);
  }

  lemma FusedTailWidth(s: Stmt, t: Stmt)
    requires FuseLoopsTail(s) == Some(t)
    ensures Fusion.Width(t) == Fusion.Width(s)
  {
    assert FuseLoops(Seq(s.left, s.right.left)) == Some(t.left) && t.right == s.right.right;
    assert Fusion.Width(Seq(s.left, s.right.left)) == Fusion.Width(t.left);
  }

  lemma SwappedTailWidth(s: Stmt, t: Stmt)
    requires s.Seq? && s.right.Seq? && t.Seq? && t.right.Seq? && t.right.right == s.right.right &&
      t.left == s.right.left && t.right.left == s.left
    ensures Fusion.Width(t) == Fusion.Width(s)
  {
    SeqWidth(s.left, s.right);
    SeqWidth(s.right.left, s.right.right);
    SeqWidth(t.left, t.right);
    SeqWidth(t.right.left, t.right.right);
  }

  lemma SeqWidth(l: Stmt, r: Stmt)
    ensures Fusion.Width(Seq(l, r)) == if Fusion.Width(l) > Fusion.Width(r) then Fusion.Width(l) else Fusion.Width(r)
  {
  }

  /** The rules keep how many members a node has. */
  lemma {:induction false} WidthKept(size: string -> pos, s: Stmt, t: Stmt)
    requires Changes(size, s, t)
    ensures Fusion.Width(t) == Fusion.Width(s)
    decreases s
  {
    if Rearranges(size, s, t) {
      RearrangedWidth(size, s, t);
    } else if TailRearranges(size, s, t) {
      TailRearrangedWidth(size, s, t);
    } else {
      if s.Loop? { WidthKept(size, s.body, t.body); }
      else if t.right == s.right && Changes(size, s.left, t.left) { WidthKept(size, s.left, t.left); }
      else { WidthKept(size, s.right, t.right); }
    }
  }

  // ---------------------------------------------------------------------------------------------
  // The rules on the tree of nodes

  /** Members of a node name their tensors and do not conflict, as the planner's groups do not. */
  ghost predicate GoodNode(s: Stmt) { ProperLanes(s) && MembersFree(s) }

  ghost predicate MembersFree(s: Stmt) {
    forall i, j :: 0 <= i < Fusion.Width(s) && 0 <= j < Fusion.Width(s) && i != j ==> LanesFree(Lane(s, i), Lane(s, j))
  }

  ghost predicate GoodTree(s: Stmt) {
    match s
    case Seq(l, r) => GoodTree(l) && GoodTree(r)
    case _ => GoodNode(s)
  }

  /** Splitting a node; both bodies store something. */
  ghost predicate NodeSplits(s: Stmt, t: Stmt) {
    Splits(s, t) && WriteSet(s.body.left) != {} && WriteSet(s.body.right) != {}
  }

  /** Fusing two nodes of as many members into one whose members do not conflict. */
  ghost predicate NodeFuses(size: string -> pos, s: Stmt, t: Stmt) {
    Fuses(size, s, t) && Fusion.Width(s.left) == Fusion.Width(s.right) && MembersFree(t)
  }

  /** The tail forms, on the first of two or the first two of three. */
  ghost predicate FirstTwoChange(size: string -> pos, s: Stmt, t: Stmt) {
    || (s.Seq? && s.right.Seq? && t.Seq? && t.right.Seq? && t.right.right == s.right.right &&
      Swaps(Seq(s.left, s.right.left), Seq(t.left, t.right.left)))
    || (FissionTail(s) == Some(t) && NodeSplits(s.left, Seq(t.left, t.right.left)))
    || (FuseLoopsTail(s) == Some(t) && NodeFuses(size, Seq(s.left, s.right.left), t.left))
  }

  /** A rule at a place of the tree, or inside a loop that is a node. */
  ghost predicate TreeChanges(size: string -> pos, s: Stmt, t: Stmt)
    decreases s
  {
    || Swaps(s, t) || NodeSplits(s, t) || NodeFuses(size, s, t)
    || FirstTwoChange(size, s, t)
    || (s.Seq? && t.Seq? && t.right == s.right && TreeChanges(size, s.left, t.left))
    || (s.Seq? && t.Seq? && t.left == s.left && TreeChanges(size, s.right, t.right))
    || (s.Loop? && t.Loop? && t == Loop(s.start, s.end, s.tile, s.loopVar, t.body) && Changes(size, s.body, t.body))
  }

  /** The tree does the same, and stays good. */
  ghost predicate SameTree<C(!new), V(!new)>(M: Machine<C, V>, s: Stmt, t: Stmt) {
    GoodTree(t) && forall mem: Mem<C> :: RunTree(M, t, mem) == RunTree(M, s, mem)
  }

  // How many members the bodies have.

  lemma {:induction false} StoredIn(s: Stmt, p: Access, k: nat)
    requires p in WriteSet(s)
    ensures Component(p.0, k) in StmtStores(Lane(s, k)) && |SplitNames(p.0)| <= Fusion.Width(s)
    decreases s, 1
  {
    match s
    case Store(_, _, _) =>
    case Loop(_, _, _, _, b) => StoredIn(b, p, k);
    case Seq(l, r) => if p in WriteSet(l) { StoredIn(l, p, k); } else { StoredIn(r, p, k); }
    case Block(ss) =>
      var c :| c in ss && p in WriteSet(c);
      StoredInOne(ss, c, p, k);
  }

  lemma {:induction false} StoredInOne(ss: seq<Stmt>, c: Stmt, p: Access, k: nat)
    requires c in ss && p in WriteSet(c)
    ensures Component(p.0, k) in StmtStores(Block(LaneAll(ss, k))) && |SplitNames(p.0)| <= Fusion.WidthAll(ss)
    decreases ss, 0
  {
    if c == ss[0] {
      StoredIn(ss[0], p, k);
      assert Lane(ss[0], k) in LaneAll(ss, k);
    } else {
      StoredInOne(ss[1..], c, p, k);
      var d :| d in LaneAll(ss[1..], k) && Component(p.0, k) in StmtStores(d);
      assert d in LaneAll(ss, k);
    }
  }

  /** In a good node every store is for all members. */
  lemma GoodNodeIsEven(s: Stmt, p: Access)
    requires GoodNode(s) && p in WriteSet(s)
    ensures |SplitNames(p.0)| == Fusion.Width(s)
  {
    if |SplitNames(p.0)| > 1 { UnnamedStore(s, p); } else { SharedStore(s, p); }
    StoredIn(s, p, 0);
  }

  /** A store for some members only leaves the next one without a name. */
  lemma UnnamedStore(s: Stmt, p: Access)
    requires p in WriteSet(s) && |SplitNames(p.0)| > 1
    ensures !ProperAt(s, |SplitNames(p.0)|)
  {
    StoredIn(s, p, |SplitNames(p.0)|);
  }

  /** A store under one name is shared by the members. */
  lemma SharedStore(s: Stmt, p: Access)
    requires p in WriteSet(s) && |SplitNames(p.0)| == 1
    ensures !LanesFree(Lane(s, 0), Lane(s, 1))
  {
    StoredIn(s, p, 0);
    StoredIn(s, p, 1);
    assert Component(p.0, 0) == Component(p.0, 1);
  }

  lemma {:induction false} EvenWidth(s: Stmt, w: nat)
    requires forall p :: p in WriteSet(s) ==> |SplitNames(p.0)| == w
    ensures Fusion.Width(s) == if WriteSet(s) == {} then 0 else w
    decreases s, 1
  {
    match s
    case Store(t, _, ix) => assert (t, ix) in WriteSet(s);
    case Loop(_, _, _, _, b) => EvenWidth(b, w);
    case Seq(l, r) => EvenWidth(l, w); EvenWidth(r, w);
    case Block(ss) => EvenWidthAll(ss, w);
  }

  lemma {:induction false} EvenWidthAll(ss: seq<Stmt>, w: nat)
    requires forall p :: p in WriteSet(Block(ss)) ==> |SplitNames(p.0)| == w
    ensures Fusion.WidthAll(ss) == if WriteSet(Block(ss)) == {} then 0 else w
    decreases ss, 0
  {
    if ss != [] {
      assert WriteSet(Block(ss)) == WriteSet(ss[0]) + WriteSet(Block(ss[1..])) by {
        assert forall c :: c in ss <==> c == ss[0] || c in ss[1..];
      }
      EvenWidth(ss[0], w);
      EvenWidthAll(ss[1..], w);
    }
  }

  // Splitting and fusing a node.

  /** Numbered steps from k to w. */
  ghost function Steps<S>(f: (nat, S) -> S, k: nat, w: nat, s: S): S
    decreases w - k
  {
    if k >= w then s else Steps(f, k + 1, w, f(k, s))
  }

  ghost predicate StepPasses<S(!new)>(f: (nat, S) -> S, i: nat, g: (nat, S) -> S, j: nat) {
    forall s :: f(i, g(j, s)) == g(j, f(i, s))
  }

  lemma {:induction false} StepPastSteps<S(!new)>(f: (nat, S) -> S, i: nat, g: (nat, S) -> S, k: nat, w: nat, s: S)
    requires forall j :: k <= j < w ==> StepPasses(f, i, g, j)
    ensures f(i, Steps(g, k, w, s)) == Steps(g, k, w, f(i, s))
    decreases w - k
  {
    if k < w {
      StepPastSteps(f, i, g, k + 1, w, g(k, s));
      assert StepPasses(f, i, g, k);
    }
  }

  /** Each step of h is one of g and then one of f; steps of f pass the later ones of g. */
  ghost predicate Joint<S(!new)>(h: (nat, S) -> S, g: (nat, S) -> S, f: (nat, S) -> S, w: nat) {
    && (forall j: nat :: j < w ==> StepJoins(h, g, f, j))
    && forall i: nat, j: nat :: i < j < w ==> StepPasses(f, i, g, j)
  }

  ghost predicate StepJoins<S(!new)>(h: (nat, S) -> S, g: (nat, S) -> S, f: (nat, S) -> S, j: nat) {
    forall s :: h(j, s) == f(j, g(j, s))
  }

  lemma {:induction false} JointSteps<S(!new)>(h: (nat, S) -> S, g: (nat, S) -> S, f: (nat, S) -> S, k: nat, w: nat,
      s: S)
    requires Joint(h, g, f, w)
    ensures Steps(h, k, w, s) == Steps(f, k, w, Steps(g, k, w, s))
    decreases w - k
  {
    if k < w {
      JointSteps(h, g, f, k + 1, w, f(k, g(k, s)));
      StepPastSteps(f, k, g, k + 1, w, g(k, s));
      assert StepJoins(h, g, f, k);
    }
  }

  /** The members of a node as numbered steps. */
  ghost function MemberStep<C, V>(M: Machine<C, V>, node: Stmt): (nat, Mem<C>) -> Mem<C> {
    (j: nat, mem: Mem<C>) => Exec(M, Lane(node, j), map[], mem)
  }

  lemma {:induction false} LanesAreSteps<C, V>(M: Machine<C, V>, node: Stmt, k: nat, mem: Mem<C>)
    ensures Fusion.RunLanes(M, node, k, mem) == Steps(MemberStep(M, node), k, Fusion.Width(node), mem)
    decreases Fusion.Width(node) - k
  {
    if k < Fusion.Width(node) { LanesAreSteps(M, node, k + 1, Exec(M, Lane(node, k), map[], mem)); }
  }

  /** Members of s free of each other, of which each runs a member of l1 and then one of l2. */
  ghost predicate JointNodes<C(!new), V(!new)>(M: Machine<C, V>, s: Stmt, l1: Stmt, l2: Stmt) {
    && Fusion.Width(l1) == Fusion.Width(l2) == Fusion.Width(s)
    && forall j :: 0 <= j < Fusion.Width(s) ==> SameMember(M, Seq(Lane(l1, j), Lane(l2, j)), Lane(s, j))
  }

  lemma JointRuns<C(!new), V(!new)>(M: Machine<C, V>, s: Stmt, l1: Stmt, l2: Stmt, mem: Mem<C>)
    requires JointNodes(M, s, l1, l2) && MembersFree(s)
    ensures Fusion.RunLanes(M, s, 0, mem) == Fusion.RunLanes(M, l2, 0, Fusion.RunLanes(M, l1, 0, mem))
  {
    var w, h, g, f := Fusion.Width(s), MemberStep(M, s), MemberStep(M, l1), MemberStep(M, l2);
    JointMembers(M, s, l1, l2);
    LanesAreSteps(M, s, 0, mem);
    LanesAreSteps(M, l1, 0, mem);
    LanesAreSteps(M, l2, 0, Fusion.RunLanes(M, l1, 0, mem));
    JointSteps(h, g, f, 0, w, mem);
  }

  lemma JointMembers<C(!new), V(!new)>(M: Machine<C, V>, s: Stmt, l1: Stmt, l2: Stmt)
    requires JointNodes(M, s, l1, l2) && MembersFree(s)
    ensures Joint(MemberStep(M, s), MemberStep(M, l1), MemberStep(M, l2), Fusion.Width(s))
  {
    var w, h, g, f := Fusion.Width(s), MemberStep(M, s), MemberStep(M, l1), MemberStep(M, l2);
    forall j: nat | j < w ensures StepJoins(h, g, f, j) { MemberJoins(M, s, l1, l2, j); }
    forall i: nat, j: nat | i < j < w ensures StepPasses(f, i, g, j) {
      forall mem: Mem<C> ensures f(i, g(j, mem)) == g(j, f(i, mem)) { MembersPass(M, s, l1, l2, i, j, mem); }
    }
  }

  lemma MemberJoins<C(!new), V(!new)>(M: Machine<C, V>, s: Stmt, l1: Stmt, l2: Stmt, j: nat)
    requires SameMember(M, Seq(Lane(l1, j), Lane(l2, j)), Lane(s, j))
    ensures StepJoins(MemberStep(M, s), MemberStep(M, l1), MemberStep(M, l2), j)
  {
    forall mem: Mem<C> ensures MemberStep(M, s)(j, mem) == MemberStep(M, l2)(j, MemberStep(M, l1)(j, mem)) {
      assert Exec(M, Lane(s, j), map[], mem) == Exec(M, Seq(Lane(l1, j), Lane(l2, j)), map[], mem);
    }
  }

  /** Parts of members that do not conflict do not either. */
  lemma PartFree<C(!new), V(!new)>(M: Machine<C, V>, a: Stmt, a1: Stmt, a2: Stmt, b: Stmt, b1: Stmt, b2: Stmt)
    requires LanesFree(a, b) && SameMember(M, Seq(a1, a2), a) && SameMember(M, Seq(b1, b2), b)
    ensures LanesFree(b1, a2) && LanesFree(a1, b1) && LanesFree(a2, b2)
  {
  }

  lemma MembersPass<C(!new), V(!new)>(M: Machine<C, V>, s: Stmt, l1: Stmt, l2: Stmt, i: nat, j: nat, mem: Mem<C>)
    requires JointNodes(M, s, l1, l2) && MembersFree(s) && i < j < Fusion.Width(s)
    ensures Exec(M, Lane(l2, i), map[], Exec(M, Lane(l1, j), map[], mem)) ==
      Exec(M, Lane(l1, j), map[], Exec(M, Lane(l2, i), map[], mem))
  {
    PartFree(M, Lane(s, i), Lane(l1, i), Lane(l2, i), Lane(s, j), Lane(l1, j), Lane(l2, j));
    SwapStatements(M, Lane(l1, j), Lane(l2, i), map[], mem);
  }

  lemma SameBack<C(!new), V(!new)>(M: Machine<C, V>, s: Stmt, t: Stmt)
    requires SameMember(M, s, t)
    ensures SameMember(M, t, s)
  {
  }

  /** The two halves of a good node are good. */
  lemma HalvesGood<C(!new), V(!new)>(M: Machine<C, V>, s: Stmt, l1: Stmt, l2: Stmt)
    requires GoodNode(s) && JointNodes(M, s, l1, l2)
    ensures GoodNode(l1) && GoodNode(l2)
  {
    forall k | 0 <= k < Fusion.Width(s) ensures ProperAt(l1, k) && ProperAt(l2, k) {
      assert ProperAt(s, k) && SameMember(M, Seq(Lane(l1, k), Lane(l2, k)), Lane(s, k));
    }
    forall i, j | 0 <= i < Fusion.Width(s) && 0 <= j < Fusion.Width(s) && i != j
      ensures LanesFree(Lane(l1, i), Lane(l1, j)) && LanesFree(Lane(l2, i), Lane(l2, j))
    {
      PartFree(M, Lane(s, i), Lane(l1, i), Lane(l2, i), Lane(s, j), Lane(l1, j), Lane(l2, j));
    }
  }

  lemma HalvesEven(s: Stmt, l1: Stmt, l2: Stmt)
    requires NodeSplits(s, Seq(l1, l2)) && GoodNode(s)
    ensures Fusion.Width(l1) == Fusion.Width(l2) == Fusion.Width(s)
  {
    var w, b1, b2 := Fusion.Width(s), s.body.left, s.body.right;
    assert l1.body == b1 && l2.body == b2;
    assert WriteSet(s) == WriteSet(b1) + WriteSet(b2);
    forall p | p in WriteSet(s) ensures |SplitNames(p.0)| == w { GoodNodeIsEven(s, p); }
    EvenWidth(b1, w);
    EvenWidth(b2, w);
  }

  lemma NodeSplitsJoint<C(!new), V(!new)>(M: Machine<C, V>, s: Stmt, l1: Stmt, l2: Stmt)
    requires KeepsRegionsApart(M) && NodeSplits(s, Seq(l1, l2)) && GoodNode(s)
    ensures JointNodes(M, s, l1, l2)
  {
    var w := Fusion.Width(s);
    HalvesEven(s, l1, l2);
    forall j | 0 <= j < w ensures SameMember(M, Seq(Lane(l1, j), Lane(l2, j)), Lane(s, j)) {
      assert ProperAt(s, j);
      SplitsAt(M, s, Seq(l1, l2), j);
      SameBack(M, Lane(s, j), Lane(Seq(l1, l2), j));
    }
  }

  lemma NodeFusesJoint<C(!new), V(!new)>(M: Machine<C, V>, l1: Stmt, l2: Stmt, t: Stmt)
    requires KeepsRegionsApart(M) && NodeFuses(M.tileSize, Seq(l1, l2), t) && GoodNode(l1) && GoodNode(l2)
    ensures JointNodes(M, t, l1, l2) && GoodNode(t)
  {
    var w := Fusion.Width(l1);
    forall j | 0 <= j < w ensures SameMember(M, Seq(Lane(l1, j), Lane(l2, j)), Lane(t, j)) && ProperAt(t, j) {
      assert ProperAt(l1, j) && ProperAt(l2, j);
      FusesAt(M, Seq(l1, l2), t, j);
    }
  }

  lemma InsideNode<C(!new), V(!new)>(M: Machine<C, V>, s: Stmt, t: Stmt)
    requires KeepsRegionsApart(M) && GoodNode(s) && Changes(M.tileSize, s, t) && s.Loop? && t.Loop?
    ensures SameTree(M, s, t)
  {
    var w := Fusion.Width(s);
    WidthKept(M.tileSize, s, t);
    forall k | 0 <= k < w ensures SameMember(M, Lane(s, k), Lane(t, k)) && ProperAt(t, k) {
      assert ProperAt(s, k);
      ChangesAt(M, s, t, k);
    }
    forall i, j | 0 <= i < w && 0 <= j < w && i != j ensures LanesFree(Lane(t, i), Lane(t, j)) {
      assert LanesFree(Lane(s, i), Lane(s, j));
      assert SameMember(M, Lane(s, i), Lane(t, i)) && SameMember(M, Lane(s, j), Lane(t, j));
    }
    forall mem: Mem<C> ensures RunTree(M, t, mem) == RunTree(M, s, mem) { SameLanes(M, s, t, 0, mem); }
  }

  lemma {:induction false} SameLanes<C(!new), V(!new)>(M: Machine<C, V>, s: Stmt, t: Stmt, k: nat, mem: Mem<C>)
    requires Fusion.Width(t) == Fusion.Width(s) && forall j :: 0 <= j < Fusion.Width(s) ==>
      SameMember(M, Lane(s, j), Lane(t, j))
    ensures Fusion.RunLanes(M, t, k, mem) == Fusion.RunLanes(M, s, k, mem)
    decreases Fusion.Width(s) - k
  {
    if k < Fusion.Width(s) {
      assert SameMember(M, Lane(s, k), Lane(t, k));
      SameLanes(M, s, t, k + 1, Exec(M, Lane(s, k), map[], mem));
    }
  }

  // The rules one by one.

  lemma TreeSwaps<C(!new), V(!new)>(M: Machine<C, V>, a: Stmt, b: Stmt)
    requires Exchangeable(a, b) && GoodTree(a) && GoodTree(b)
    ensures forall mem: Mem<C> :: RunTree(M, b, RunTree(M, a, mem)) == RunTree(M, a, RunTree(M, b, mem))
  {
    forall mem: Mem<C>
      ensures RunTree(M, b, RunTree(M, a, mem)) == RunTree(M, a, RunTree(M, b, mem))
    {
      NodesCommute(M, a, 0, b, mem);
    }
  }

  lemma TreeSplits<C(!new), V(!new)>(M: Machine<C, V>, s: Stmt, l1: Stmt, l2: Stmt)
    requires KeepsRegionsApart(M) && NodeSplits(s, Seq(l1, l2)) && GoodTree(s)
    ensures GoodTree(l1) && GoodTree(l2) &&
      forall mem: Mem<C> :: RunTree(M, l2, RunTree(M, l1, mem)) == RunTree(M, s, mem)
  {
    NodeSplitsJoint(M, s, l1, l2);
    HalvesGood(M, s, l1, l2);
    forall mem: Mem<C>
      ensures RunTree(M, l2, RunTree(M, l1, mem)) == RunTree(M, s, mem)
    {
      JointRuns(M, s, l1, l2, mem);
    }
  }

  lemma TreeFuses<C(!new), V(!new)>(M: Machine<C, V>, l1: Stmt, l2: Stmt, t: Stmt)
    requires KeepsRegionsApart(M) && NodeFuses(M.tileSize, Seq(l1, l2), t) && GoodTree(l1) && GoodTree(l2)
    ensures GoodTree(t) && forall mem: Mem<C> :: RunTree(M, t, mem) == RunTree(M, l2, RunTree(M, l1, mem))
  {
    NodeFusesJoint(M, l1, l2, t);
    forall mem: Mem<C>
      ensures RunTree(M, t, mem) == RunTree(M, l2, RunTree(M, l1, mem))
    {
      JointRuns(M, t, l1, l2, mem);
    }
  }

  /** Any rule at any place of the tree keeps what the program does. */
  lemma {:induction false} TreeChangePreserves<C(!new), V(!new)>(M: Machine<C, V>, s: Stmt, t: Stmt)
    requires KeepsRegionsApart(M) && TreeChanges(M.tileSize, s, t) && GoodTree(s)
    ensures SameTree(M, s, t)
    decreases s
  {
    if FirstTwoChange(M.tileSize, s, t) { FirstTwoPreserve(M, s, t); }
    else if Swaps(s, t) { TreeSwaps(M, s.left, s.right); }
    else if NodeSplits(s, t) { TreeSplits(M, s, t.left, t.right); }
    else if NodeFuses(M.tileSize, s, t) { TreeFuses(M, s.left, s.right, t); }
    else if s.Loop? { InsideNode(M, s, t); }
    else if t.right == s.right && TreeChanges(M.tileSize, s.left, t.left) {
      TreeChangePreserves(M, s.left, t.left);
      SameInSeq(M, s.left, s.right, t.left, t.right);
    } else {
      TreeChangePreserves(M, s.right, t.right);
      SameInSeq(M, s.left, s.right, t.left, t.right);
    }
  }

  lemma SameInSeq<C(!new), V(!new)>(M: Machine<C, V>, l: Stmt, r: Stmt, l': Stmt, r': Stmt)
    requires GoodTree(l) && GoodTree(r) && (l' == l || SameTree(M, l, l')) && (r' == r || SameTree(M, r, r'))
    ensures SameTree(M, Seq(l, r), Seq(l', r'))
  {
    forall mem: Mem<C> ensures RunTree(M, Seq(l', r'), mem) == RunTree(M, Seq(l, r), mem) {
      assert RunTree(M, l', mem) == RunTree(M, l, mem);
    }
  }

  lemma FirstTwoPreserve<C(!new), V(!new)>(M: Machine<C, V>, s: Stmt, t: Stmt)
    requires KeepsRegionsApart(M) && FirstTwoChange(M.tileSize, s, t) && GoodTree(s)
    ensures SameTree(M, s, t)
  {
    if FissionTail(s) == Some(t) && NodeSplits(s.left, Seq(t.left, t.right.left)) { FirstSplits(M, s, t); }
    else if FuseLoopsTail(s) == Some(t) && NodeFuses(M.tileSize, Seq(s.left, s.right.left), t.left) {
      FirstFuse(M, s, t);
    }
    else { FirstSwap(M, s, t); }
  }

  lemma FirstSplits<C(!new), V(!new)>(M: Machine<C, V>, s: Stmt, t: Stmt)
    requires KeepsRegionsApart(M) && FissionTail(s) == Some(t) && NodeSplits(s.left, Seq(t.left, t.right.left)) &&
      GoodTree(s)
    ensures SameTree(M, s, t)
  {
    assert t.right.right == s.right;
    TreeSplits(M, s.left, t.left, t.right.left);
    forall mem: Mem<C> ensures RunTree(M, t, mem) == RunTree(M, s, mem) {
      assert RunTree(M, t.right.left, RunTree(M, t.left, mem)) == RunTree(M, s.left, mem);
    }
  }

  lemma FirstFuse<C(!new), V(!new)>(M: Machine<C, V>, s: Stmt, t: Stmt)
    requires KeepsRegionsApart(M) && FuseLoopsTail(s) == Some(t) &&
      NodeFuses(M.tileSize, Seq(s.left, s.right.left), t.left) && GoodTree(s)
    ensures SameTree(M, s, t)
  {
    assert t.right == s.right.right;
    TreeFuses(M, s.left, s.right.left, t.left);
    forall mem: Mem<C> ensures RunTree(M, t, mem) == RunTree(M, s, mem) {
      assert RunTree(M, t.left, mem) == RunTree(M, s.right.left, RunTree(M, s.left, mem));
    }
  }

  lemma FirstSwap<C(!new), V(!new)>(M: Machine<C, V>, s: Stmt, t: Stmt)
    requires s.Seq? && s.right.Seq? && t.Seq? && t.right.Seq? && t.right.right == s.right.right
    requires Swaps(Seq(s.left, s.right.left), Seq(t.left, t.right.left)) && GoodTree(s)
    ensures SameTree(M, s, t)
  {
    TreeSwaps(M, s.left, s.right.left);
    forall mem: Mem<C> ensures RunTree(M, t, mem) == RunTree(M, s, mem) {
      assert RunTree(M, s.right.left, RunTree(M, s.left, mem)) == RunTree(M, s.left, RunTree(M, s.right.left, mem));
    }
  }

  // ---------------------------------------------------------------------------------------------
  // From the calls to the optimized program

  lemma {:induction false} RewritesPreserve<C(!new), V(!new)>(M: Machine<C, V>, chain: seq<Stmt>, mem: Mem<C>)
    requires KeepsRegionsApart(M) && chain != [] && GoodTree(chain[0])
    requires forall k :: 0 <= k < |chain| - 1 ==> TreeChanges(M.tileSize, chain[k], chain[k + 1])
    ensures RunTree(M, chain[|chain| - 1], mem) == RunTree(M, chain[0], mem)
    decreases |chain|
  {
    if |chain| > 1 {
      assert TreeChanges(M.tileSize, chain[0], chain[0 + 1]);
      TreeChangePreserves(M, chain[0], chain[1]);
      var rest := chain[1..];
      forall k | 0 <= k < |rest| - 1
        ensures TreeChanges(M.tileSize, rest[k], rest[k + 1])
      {
        assert TreeChanges(M.tileSize, chain[k + 1], chain[k + 1 + 1]);
      }
      RewritesPreserve(M, rest, mem);
    }
  }

  /** Members of an emitted node do not conflict: the planner tested every two of them. */
  lemma EmittedMembersFree(calls: seq<Call>, groups: seq<Fusion.FusionGroup>, idx: nat)
    requires Fusion.NamedCalls(calls) && idx < |calls|
    requires Fusion.SlotsDetermined(Fusion.AnalyzeCalls(calls)) && Fusion.Planned(Fusion.AnalyzeCalls(calls), groups)
    ensures MembersFree(Fusion.NodeAt(calls, groups, idx))
  {
    var an, node := Fusion.AnalyzeCalls(calls), Fusion.NodeAt(calls, groups, idx);
    Fusion.PlannedIsOrdered(an, groups);
    Fusion.GroupAtFinds(groups, |calls|, idx);
    match Fusion.GroupAt(groups, idx)
    case None => Fusion.PlainNode(calls[idx].root);
    case Some(g) =>
      Fusion.GroupWidth(calls, g);
      forall i, j | 0 <= i < Fusion.Width(node) && 0 <= j < Fusion.Width(node) && i != j
        ensures LanesFree(Lane(node, i), Lane(node, j))
      {
        Fusion.FusedNodeLossless(calls, g, i);
        Fusion.FusedNodeLossless(calls, g, j);
        if i < j { MembersApart(calls, g, i, j); } else { MembersApart(calls, g, j, i); }
      }
  }

  lemma MembersApart(calls: seq<Call>, g: Fusion.FusionGroup, i: nat, j: nat)
    requires Fusion.SlotsDetermined(Fusion.AnalyzeCalls(calls)) && Fusion.PlannedGroup(Fusion.AnalyzeCalls(calls), g) &&
      i < j < |g.callIndices|
    ensures g.callIndices[i] < |calls| && g.callIndices[j] < |calls| &&
      LanesFree(calls[g.callIndices[i]].root, calls[g.callIndices[j]].root)
  {
    var an := Fusion.AnalyzeCalls(calls);
    assert Fusion.PairOk(an, g.callIndices[i], g.callIndices[j]);
    var p, q := an[g.callIndices[i]], an[g.callIndices[j]];
    assert forall t :: t in p.stores && t in q.loads ==> t in p.stores * q.loads;
    assert forall t :: t in q.stores && t in p.loads ==> t in q.stores * p.loads;
    assert forall t :: t in p.stores && t in q.stores ==> t in p.stores * q.stores;
  }

  lemma {:induction false} EmittedIsGood(calls: seq<Call>, groups: seq<Fusion.FusionGroup>, idx: nat)
    requires Fusion.NamedCalls(calls) && PlainRoots(calls)
    requires Fusion.SlotsDetermined(Fusion.AnalyzeCalls(calls)) && Fusion.Planned(Fusion.AnalyzeCalls(calls), groups)
    ensures forall s :: s in Fusion.Emit(calls, groups, idx) ==> !s.Seq? && GoodNode(s)
    decreases |calls| - idx
  {
    if idx < |calls| {
      EmittedIsGood(calls, groups, idx + 1);
      if !Fusion.Skipped(groups, idx) {
        EmittedNodeIsProper(calls, groups, idx);
        EmittedMembersFree(calls, groups, idx);
      }
    }
  }

  lemma {:induction false} GoodNodes(nodes: seq<Stmt>)
    requires nodes != [] && forall s :: s in nodes ==> !s.Seq? && GoodNode(s)
    ensures GoodTree(SeqFromList(nodes))
    decreases |nodes|
  {
    assert nodes[0] in nodes;
    if |nodes| > 1 { GoodNodes(nodes[1..]); }
  }

  /** From the calls through grouping, emission, sequencing and any number of exchanges, splits and fusions
      of loops: on every machine that keeps regions apart the program still does what the calls did. */
  lemma OptimizedProgramPreserves<C(!new), V(!new)>(M: Machine<C, V>, calls: seq<Call>, chain: seq<Stmt>, mem: Mem<C>)
    requires KeepsRegionsApart(M)
    requires Fusion.NamedCalls(calls) && PlainRoots(calls) && Fusion.SlotsDetermined(Fusion.AnalyzeCalls(calls)) &&
      Emitted(calls) != []
    requires chain != [] && chain[0] == SeqFromList(Emitted(calls))
    requires forall k :: 0 <= k < |chain| - 1 ==> TreeChanges(M.tileSize, chain[k], chain[k + 1])
    ensures RunTree(M, chain[|chain| - 1], mem) == RunCalls(M, calls, mem)
  {
    var an := Fusion.AnalyzeCalls(calls);
    Fusion.PlanIsPlanned(an, 0, {});
    EmittedIsGood(calls, Fusion.Plan(an, 0, {}), 0);
    GoodNodes(Emitted(calls));
    EmittedTree(M, calls, mem);
    RewritesPreserve(M, chain, mem);
  }
}
