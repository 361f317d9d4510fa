/** Sequences of nodes: building them (frontend/core/sequantialize.py) and exchanging neighbours
    (seq-comm and seq-comm-tail in optimizer/src/rules.rs). */
module SeqRules {
  import opened Ast
  import opened Text
  import opened Machines
  import opened Reordering
  import opened Signatures
  import opened LoopRules
  import Fusion

  // ---------------------------------------------------------------------------------------------
  // Sequentialising

  /** `seq_from_list` on a non-empty list. */
  function SeqFromList(items: seq<Stmt>): Stmt
    requires items != []
  {
    if |items| == 1 then items[0] else Seq(items[0], SeqFromList(items[1..]))
  }

  method BuildSeq(items: seq<Stmt>) returns (node: Option<Stmt>)
    ensures node == if items == [] then None else Some(SeqFromList(items))
  {
    if items == [] { return None; }
    var last := |items| - 1;
    var acc, k := items[last], last;
    while k > 0
      invariant k <= last && acc == SeqFromList(items[k..])
    {
      k := k - 1;
      assert items[k..][0] == items[k] && items[k..][1..] == items[k + 1..];
      acc := Seq(items[k], acc);
    }
    assert items[0..] == items;
    node := Some(acc);
  }

  /** `sequentialize_ast`; it does not look inside a Seq. */
  function Sequentialize(s: Stmt): Stmt
    decreases s
  {
    match s
    case Block(ss) => if ss == [] then Block([]) else SeqFromList(SequentializeAll(ss))
    case Loop(lo, hi, tile, x, b) => Loop(lo, hi, tile, x, Sequentialize(b))
    case _ => s
  }

  function SequentializeAll(ss: seq<Stmt>): (r: seq<Stmt>)
    ensures |r| == |ss|
    decreases ss
  {
    if ss == [] then [] else [Sequentialize(ss[0])] + SequentializeAll(ss[1..])
  }

  lemma {:induction false} SeqFromListRuns<C, V>(M: Machine<C, V>, items: seq<Stmt>, env: Env, mem: Mem<C>)
    requires items != []
    ensures Exec(M, SeqFromList(items), env, mem) == ExecAll(M, items, env, mem)
    decreases |items|
  {
    var mem' := Exec(M, items[0], env, mem);
    if |items| == 1 {
      assert ExecAll(M, items[1..], env, mem') == mem';
    } else {
      SeqFromListRuns(M, items[1..], env, mem');
    }
  }

  /** Turning blocks into right-nested sequences keeps the meaning. */
  lemma {:induction false} SequentializePreserves<C, V>(M: Machine<C, V>, s: Stmt, env: Env, mem: Mem<C>)
    ensures Exec(M, Sequentialize(s), env, mem) == Exec(M, s, env, mem)
    decreases s, 1, 0
  {
    match s
    case Block(ss) =>
      SequentializeAllPreserves(M, ss, env, mem);
      if ss != [] { SeqFromListRuns(M, SequentializeAll(ss), env, mem); }
    case Loop(lo, hi, tile, x, b) =>
      SequentializeLoop(M, b, x, M.tileSize(tile), BoundValue(lo, env), BoundValue(hi, env), env, mem);
    case _ =>
  }

  lemma {:induction false} SequentializeLoop<C, V>(M: Machine<C, V>, b: Stmt, x: Name, step: pos, lo: int, hi: int,
      env: Env, mem: Mem<C>)
    ensures Iterate(M, Sequentialize(b), x, step, lo, hi, env, mem) == Iterate(M, b, x, step, lo, hi, env, mem)
    decreases b, 2, if lo < hi then hi - lo else 0
  {
    if lo < hi {
      var env' := Bind(env, x, lo, step);
      SequentializePreserves(M, b, env', mem);
      SequentializeLoop(M, b, x, step, lo + step, hi, env, Exec(M, b, env', mem));
    }
  }

  lemma {:induction false} SequentializeAllPreserves<C, V>(M: Machine<C, V>, ss: seq<Stmt>, env: Env, mem: Mem<C>)
    ensures ExecAll(M, SequentializeAll(ss), env, mem) == ExecAll(M, ss, env, mem)
    decreases ss, 0, 0
  {
    if ss != [] {
      SequentializePreserves(M, ss[0], env, mem);
      SequentializeAllPreserves(M, ss[1..], env, Exec(M, ss[0], env, mem));
      assert SequentializeAll(ss)[1..] == SequentializeAll(ss[1..]);
    }
  }

  predicate SeqFree(s: Stmt) {
    match s
    case Store(_, _, _) => true
    case Loop(_, _, _, _, b) => SeqFree(b)
    case Seq(_, _) => false
    case Block(ss) => forall c :: c in ss ==> SeqFree(c)
  }

  /** Blocks are gone, but for empty ones, and sequences nest to the right. */
  predicate Sequential(s: Stmt) {
    match s
    case Store(_, _, _) => true
    case Loop(_, _, _, _, b) => Sequential(b)
    case Seq(l, r) => !l.Seq? && Sequential(l) && Sequential(r)
    case Block(ss) => ss == []
  }

  /** Every item stands on its own: no block of the program is the only member of a block. */
  predicate NoLoneBlock(s: Stmt) {
    match s
    case Store(_, _, _) => true
    case Loop(_, _, _, _, b) => NoLoneBlock(b)
    case Seq(l, r) => NoLoneBlock(l) && NoLoneBlock(r)
    case Block(ss) => forall c :: c in ss ==> NoLoneBlock(c) && !c.Block?
  }

  lemma {:induction false} ListSequential(items: seq<Stmt>)
    requires items != [] && forall c :: c in items ==> Sequential(c) && !c.Seq?
    ensures Sequential(SeqFromList(items)) && (SeqFromList(items).Seq? <==> |items| > 1)
  {
    assert items[0] in items;
    if |items| > 1 { ListSequential(items[1..]); }
  }

  /** Sequentialising leaves no block in a program of nested blocks: every block directly below a loop or at the top
      becomes a right-nested sequence. */
  lemma {:induction false} SequentializeComplete(s: Stmt)
    requires SeqFree(s) && NoLoneBlock(s)
    ensures Sequential(Sequentialize(s)) && (Sequentialize(s).Seq? ==> s.Block?)
    decreases s, 1
  {
    match s
    case Store(_, _, _) =>
    case Loop(_, _, _, _, b) => SequentializeComplete(b);
    case Block(ss) =>
      if ss != [] {
        ItemsComplete(ss);
        ListSequential(SequentializeAll(ss));
      }
  }

  lemma {:induction false} ItemsComplete(ss: seq<Stmt>)
    requires forall c :: c in ss ==> SeqFree(c) && NoLoneBlock(c) && !c.Block?
    ensures forall c :: c in SequentializeAll(ss) ==> Sequential(c) && !c.Seq?
    decreases ss, 0
  {
    if ss != [] {
      SequentializeComplete(ss[0]);
      ItemsComplete(ss[1..]);
    }
  }

  // ---------------------------------------------------------------------------------------------
  // Programs as trees of nodes with joined names

  /** A tree of sequences runs its leaves in order, each leaf all its members. */
  function RunTree<C, V>(M: Machine<C, V>, s: Stmt, mem: Mem<C>): Mem<C> {
    match s
    case Seq(l, r) => RunTree(M, r, RunTree(M, l, mem))
    case _ => Fusion.RunLanes(M, s, 0, mem)
  }

  /** The k-th member names its tensors. */
  ghost predicate ProperAt(node: Stmt, k: nat) { "" !in StmtLoads(Lane(node, k)) && "" !in StmtStores(Lane(node, k)) }

  /** Every member of a node does. */
  ghost predicate ProperLanes(node: Stmt) {
    forall k :: 0 <= k < Fusion.Width(node) ==> ProperAt(node, k)
  }

  ghost predicate ProperTree(s: Stmt) {
    match s
    case Seq(l, r) => ProperTree(l) && ProperTree(r)
    case _ => ProperLanes(s)
  }

  /** A component of a name the expression loads. */
  ghost predicate LoadsFrom(e: Expr, n: Name) { exists p :: p in LoadAccesses(e) && n in SplitNames(p.0) }

  lemma {:induction false} LaneExprLoads(e: Expr, k: nat)
    ensures forall n :: n in Loads(LaneExpr(e, k)) ==> n == "" || LoadsFrom(e, n)
    decreases e, 1
  {
    match e
    case Load(t, ix) => assert (t, ix) in LoadAccesses(e);
    case Op(op, args) =>
      LaneExprsLoads(args, k);
      forall n | n in Loads(LaneExpr(e, k)) && n != "" ensures LoadsFrom(e, n) {
        var a :| a in LaneExprs(args, k) && n in Loads(a);
        var j :| 0 <= j < |args| && LaneExprs(args, k)[j] == a;
        assert LoadsFrom(args[j], n);
        var p :| p in LoadAccesses(args[j]) && n in SplitNames(p.0);
        assert args[j] in args;
      }
    case _ =>
  }

  lemma {:induction false} LaneExprsLoads(args: seq<Expr>, k: nat)
    ensures forall j, n :: 0 <= j < |args| && n in Loads(LaneExprs(args, k)[j]) ==> n == "" || LoadsFrom(args[j], n)
    decreases args, 0
  {
    if args != [] {
      LaneExprLoads(args[0], k);
      LaneExprsLoads(args[1..], k);
      forall j, n | 0 <= j < |args| && n in Loads(LaneExprs(args, k)[j]) ensures n == "" || LoadsFrom(args[j], n) {
        if j > 0 {
          assert LaneExprs(args, k)[j] == LaneExprs(args[1..], k)[j - 1] && args[j] == args[1..][j - 1];
        }
      }
    }
  }

  /** A member loads and stores only components of the node's own names. */
  ghost predicate ReadsFrom(s: Stmt, n: Name) { exists p :: p in ReadSet(s) && n in SplitNames(p.0) }
  ghost predicate WritesTo(s: Stmt, n: Name) { exists p :: p in WriteSet(s) && n in SplitNames(p.0) }

  lemma {:induction false} LaneNames(s: Stmt, k: nat)
    ensures forall n :: n in StmtLoads(Lane(s, k)) ==> n == "" || ReadsFrom(s, n)
    ensures forall n :: n in StmtStores(Lane(s, k)) ==> n == "" || WritesTo(s, n)
    decreases s, 1
  {
    match s
    case Store(t, v, ix) =>
      LaneExprLoads(v, k);
      assert (t, ix) in WriteSet(s);
    case Loop(_, _, _, _, b) => LaneNames(b, k);
    case Seq(l, r) =>
      LaneNames(l, k);
      LaneNames(r, k);
    case Block(ss) => LaneAllNames(ss, k, s);
  }

  lemma {:induction false} LaneAllNames(ss: seq<Stmt>, k: nat, whole: Stmt)
    requires whole.Block? && forall c :: c in ss ==> c in whole.stmts
    ensures forall c, n :: c in LaneAll(ss, k) && n in StmtLoads(c) ==> n == "" || ReadsFrom(whole, n)
    ensures forall c, n :: c in LaneAll(ss, k) && n in StmtStores(c) ==> n == "" || WritesTo(whole, n)
    decreases ss, 0
  {
    if ss != [] {
      LaneNames(ss[0], k);
      assert ss[0] in whole.stmts;
      forall n | ReadsFrom(ss[0], n) ensures ReadsFrom(whole, n) {
        var p :| p in ReadSet(ss[0]) && n in SplitNames(p.0);
        assert p in ReadSet(whole);
      }
      forall n | WritesTo(ss[0], n) ensures WritesTo(whole, n) {
        var p :| p in WriteSet(ss[0]) && n in SplitNames(p.0);
        assert p in WriteSet(whole);
      }
      LaneAllNames(ss[1..], k, whole);
    }
  }

  predicate LanesFree(s: Stmt, t: Stmt) {
    NoConflict(StmtLoads(s), StmtStores(s), StmtLoads(t), StmtStores(t))
  }

  /** Members of two nodes without any dependence do not conflict. */
  lemma LanesApart(a: Stmt, b: Stmt, i: nat, j: nat)
    requires NoAllDependency(a, b) && ProperAt(a, i) && ProperAt(b, j)
    ensures LanesFree(Lane(a, i), Lane(b, j))
  {
    ProperNames(a, i);
    ProperNames(b, j);
    var la, sa, lb, sb := StmtLoads(Lane(a, i)), StmtStores(Lane(a, i)), StmtLoads(Lane(b, j)), StmtStores(Lane(b, j));
    forall n | n in sa ensures n !in lb && n !in sb { WrittenApart(a, b, n); }
    forall n | n in sb ensures n !in la { ReadApart(a, b, n); }
    assert NoConflict(la, sa, lb, sb);
  }

  lemma ProperNames(s: Stmt, k: nat)
    requires ProperAt(s, k)
    ensures forall n :: n in StmtLoads(Lane(s, k)) ==> ReadsFrom(s, n)
    ensures forall n :: n in StmtStores(Lane(s, k)) ==> WritesTo(s, n)
  {
    LaneNames(s, k);
  }

  lemma WrittenApart(a: Stmt, b: Stmt, n: Name)
    requires NoAllDependency(a, b) && WritesTo(a, n)
    ensures !ReadsFrom(b, n) && !WritesTo(b, n)
  {
    var w :| w in WriteSet(a) && n in SplitNames(w.0);
    forall p | p in ReadSet(b) ensures n !in SplitNames(p.0) { assert !BasesOverlap(p.0, w.0); }
    forall p | p in WriteSet(b) ensures n !in SplitNames(p.0) { assert !BasesOverlap(w.0, p.0); }
  }

  lemma ReadApart(a: Stmt, b: Stmt, n: Name)
    requires NoAllDependency(a, b) && WritesTo(b, n)
    ensures !ReadsFrom(a, n)
  {
    var w :| w in WriteSet(b) && n in SplitNames(w.0);
    forall p | p in ReadSet(a) ensures n !in SplitNames(p.0) { assert !BasesOverlap(p.0, w.0); }
  }

  ghost predicate FreeOf(s: Stmt, b: Stmt, k: nat) {
    forall j :: k <= j < Fusion.Width(b) ==> LanesFree(s, Lane(b, j))
  }

  lemma {:induction false} MemberPastNode<C(!new), V(!new)>(M: Machine<C, V>, s: Stmt, b: Stmt, k: nat, mem: Mem<C>)
    requires FreeOf(s, b, k)
    ensures Exec(M, s, map[], Fusion.RunLanes(M, b, k, mem)) == Fusion.RunLanes(M, b, k, Exec(M, s, map[], mem))
    decreases Fusion.Width(b) - k
  {
    if k < Fusion.Width(b) {
      SwapStatements(M, s, Lane(b, k), map[], mem);
      MemberPastNode(M, s, b, k + 1, Exec(M, Lane(b, k), map[], mem));
    }
  }

  lemma {:induction false} NodesCommute<C(!new), V(!new)>(M: Machine<C, V>, a: Stmt, k: nat, b: Stmt, mem: Mem<C>)
    requires NoAllDependency(a, b) && ProperLanes(a) && ProperLanes(b)
    ensures Fusion.RunLanes(M, b, 0, Fusion.RunLanes(M, a, k, mem)) ==
      Fusion.RunLanes(M, a, k, Fusion.RunLanes(M, b, 0, mem))
    decreases Fusion.Width(a) - k
  {
    if k < Fusion.Width(a) {
      var s := Lane(a, k);
      forall j | 0 <= j < Fusion.Width(b) ensures LanesFree(s, Lane(b, j)) { LanesApart(a, b, k, j); }
      MemberPastNode(M, s, b, 0, mem);
      NodesCommute(M, a, k + 1, b, Exec(M, s, map[], mem));
    }
  }

  // ---------------------------------------------------------------------------------------------
  // The rules

  predicate Exchangeable(a: Stmt, b: Stmt) { !a.Seq? && !b.Seq? && NoAllDependency(a, b) }

  /** seq-comm, seq-comm-tail, or one of them at a subtree. */
  predicate Exchanges(s: Stmt, t: Stmt) {
    s.Seq? && t.Seq? &&
    ((Exchangeable(s.left, s.right) && t == Seq(s.right, s.left))
     || (s.right.Seq? && Exchangeable(s.left, s.right.left) && t == Seq(s.right.left, Seq(s.left, s.right.right)))
     || (t.right == s.right && Exchanges(s.left, t.left))
     || (t.left == s.left && Exchanges(s.right, t.right)))
  }

  /** Exchanging neighbours that do not depend on each other keeps what the program does. */
  lemma {:induction false} ExchangePreserves<C(!new), V(!new)>(M: Machine<C, V>, s: Stmt, t: Stmt, mem: Mem<C>)
    requires Exchanges(s, t) && ProperTree(s)
    ensures RunTree(M, t, mem) == RunTree(M, s, mem) && ProperTree(t)
    decreases s
  {
    if Exchangeable(s.left, s.right) && t == Seq(s.right, s.left) {
      NodesCommute(M, s.left, 0, s.right, mem);
    } else if s.right.Seq? && Exchangeable(s.left, s.right.left) && t == Seq(s.right.left, Seq(s.left, s.right.right)) {
      assert ProperTree(s.right) && ProperTree(s.right.left);
      NodesCommute(M, s.left, 0, s.right.left, mem);
      var rest := s.right.right;
      assert RunTree(M, s, mem) == RunTree(M, rest, RunTree(M, s.right.left, RunTree(M, s.left, mem)));
      assert RunTree(M, t, mem) == RunTree(M, rest, RunTree(M, s.left, RunTree(M, s.right.left, mem)));
    } else if t.right == s.right && Exchanges(s.left, t.left) {
      ExchangePreserves(M, s.left, t.left, mem);
    } else {
      ExchangePreserves(M, s.right, t.right, RunTree(M, s.left, mem));
    }
  }

  lemma {:induction false} ChainPreserves<C(!new), V(!new)>(M: Machine<C, V>, chain: seq<Stmt>, mem: Mem<C>)
    requires chain != [] && ProperTree(chain[0]) && forall k :: 0 <= k < |chain| - 1 ==>
      Exchanges(chain[k], chain[k + 1])
    ensures RunTree(M, chain[|chain| - 1], mem) == RunTree(M, chain[0], mem)
    decreases |chain|
  {
    if |chain| > 1 {
      assert Exchanges(chain[0], chain[0 + 1]);
      ExchangePreserves(M, chain[0], chain[1], mem);
      var rest := chain[1..];
      forall k | 0 <= k < |rest| - 1
        ensures Exchanges(rest[k], rest[k + 1])
      {
        assert Exchanges(chain[k + 1], chain[k + 1 + 1]);
      }
      ChainPreserves(M, rest, mem);
    }
  }

  // ---------------------------------------------------------------------------------------------
  // From the calls to the exchanged program

  predicate Leaves(nodes: seq<Stmt>) { forall s :: s in nodes ==> !s.Seq? }

  lemma {:induction false} TreeRunsNodes<C, V>(M: Machine<C, V>, nodes: seq<Stmt>, mem: Mem<C>)
    requires nodes != [] && Leaves(nodes)
    ensures RunTree(M, SeqFromList(nodes), mem) == Fusion.RunNodes(M, nodes, mem)
    decreases |nodes|
  {
    assert nodes[0] in nodes;
    var mem' := Fusion.RunLanes(M, nodes[0], 0, mem);
    if |nodes| == 1 {
      assert Fusion.RunNodes(M, nodes[1..], mem') == mem';
    } else {
      TreeRunsNodes(M, nodes[1..], mem');
    }
  }

  lemma {:induction false} ProperNodes(nodes: seq<Stmt>)
    requires nodes != [] && Leaves(nodes) && forall s :: s in nodes ==> ProperLanes(s)
    ensures ProperTree(SeqFromList(nodes))
    decreases |nodes|
  {
    assert nodes[0] in nodes;
    if |nodes| > 1 { ProperNodes(nodes[1..]); }
  }

  /** Call roots that are no sequences and name all their tensors. */
  predicate PlainRoots(calls: seq<Call>) {
    forall i :: 0 <= i < |calls| ==>
      !calls[i].root.Seq? && "" !in StmtLoads(calls[i].root) && "" !in StmtStores(calls[i].root)
  }

  lemma EmittedNodeIsProper(calls: seq<Call>, groups: seq<Fusion.FusionGroup>, idx: nat)
    requires Fusion.NamedCalls(calls) && PlainRoots(calls) && idx < |calls|
    requires Fusion.SlotsDetermined(Fusion.AnalyzeCalls(calls)) && Fusion.Planned(Fusion.AnalyzeCalls(calls), groups)
    ensures !Fusion.NodeAt(calls, groups, idx).Seq? && ProperLanes(Fusion.NodeAt(calls, groups, idx))
  {
    var an, node := Fusion.AnalyzeCalls(calls), Fusion.NodeAt(calls, groups, idx);
    Fusion.PlannedIsOrdered(an, groups);
    Fusion.GroupAtFinds(groups, |calls|, idx);
    match Fusion.GroupAt(groups, idx)
    case None => Fusion.PlainNode(calls[idx].root);
    case Some(g) =>
      Fusion.GroupWidth(calls, g);
      forall k | 0 <= k < Fusion.Width(node) ensures ProperAt(node, k) {
        Fusion.FusedNodeLossless(calls, g, k);
        Fusion.MembersAlike(an, g, k);
      }
  }

  lemma {:induction false} EmittedIsProper(calls: seq<Call>, groups: seq<Fusion.FusionGroup>, idx: nat)
    requires Fusion.NamedCalls(calls) && PlainRoots(calls)
    requires Fusion.SlotsDetermined(Fusion.AnalyzeCalls(calls)) && Fusion.Planned(Fusion.AnalyzeCalls(calls), groups)
    ensures Leaves(Fusion.Emit(calls, groups, idx)) && forall s :: s in Fusion.Emit(calls, groups, idx) ==>
      ProperLanes(s)
    decreases |calls| - idx
  {
    if idx < |calls| {
      EmittedIsProper(calls, groups, idx + 1);
      if !Fusion.Skipped(groups, idx) { EmittedNodeIsProper(calls, groups, idx); }
    }
  }

  function Emitted(calls: seq<Call>): seq<Stmt>
    requires Fusion.SlotsDetermined(Fusion.AnalyzeCalls(calls))
  {
    Fusion.Emit(calls, Fusion.Plan(Fusion.AnalyzeCalls(calls), 0, {}), 0)
  }

  lemma EmittedTree<C(!new), V(!new)>(M: Machine<C, V>, calls: seq<Call>, mem: Mem<C>)
    requires Fusion.NamedCalls(calls) && PlainRoots(calls) && Fusion.SlotsDetermined(Fusion.AnalyzeCalls(calls)) &&
      Emitted(calls) != []
    ensures ProperTree(SeqFromList(Emitted(calls))) &&
      RunTree(M, SeqFromList(Emitted(calls)), mem) == RunCalls(M, calls, mem)
  {
    var an := Fusion.AnalyzeCalls(calls);
    Fusion.PlanIsPlanned(an, 0, {});
    EmittedIsProper(calls, Fusion.Plan(an, 0, {}), 0);
    ProperNodes(Emitted(calls));
    TreeRunsNodes(M, Emitted(calls), mem);
    Fusion.FusedProgramPreserves(M, calls, mem);
  }

  /** From the calls through grouping, emission, sequencing and any number of exchanges: the program
      still does what the calls did. */
  lemma ExchangedProgramPreserves<C(!new), V(!new)>(M: Machine<C, V>, calls: seq<Call>, chain: seq<Stmt>, mem: Mem<C>)
    requires Fusion.NamedCalls(calls) && PlainRoots(calls) && Fusion.SlotsDetermined(Fusion.AnalyzeCalls(calls)) &&
      Emitted(calls) != []
    requires chain != [] && chain[0] == SeqFromList(Emitted(calls))
    requires forall k :: 0 <= k < |chain| - 1 ==> Exchanges(chain[k], chain[k + 1])
    ensures RunTree(M, chain[|chain| - 1], mem) == RunCalls(M, calls, mem)
  {
    EmittedTree(M, calls, mem);
    ChainPreserves(M, chain, mem);
  }
}
