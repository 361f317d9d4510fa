/** The places where the exchange, fission and fusion rules apply (optimizer/src/rules.rs): one step of the rewriting
    is one rule at one place of the tree, a place being a path of turns. */
module RulePlaces {
  import opened Ast
  import opened Machines
  import opened LoopRules
  import opened SeqRules
  import opened TreeRules
  import opened LoopChecks
  import Fusion

  datatype Turn = Left | Right | Inside

  predicate Reaches(s: Stmt, p: seq<Turn>) {
    p == [] ||
    match p[0]
    case Left => s.Seq? && Reaches(s.left, p[1..])
    case Right => s.Seq? && Reaches(s.right, p[1..])
    case Inside => s.Loop? && Reaches(s.body, p[1..])
  }

  function Below(s: Stmt, p: seq<Turn>): Stmt
    requires Reaches(s, p)
  {
    if p == [] then s
    else
      match p[0]
      case Left => Below(s.left, p[1..])
      case Right => Below(s.right, p[1..])
      case Inside => Below(s.body, p[1..])
  }

  function Put(s: Stmt, p: seq<Turn>, u: Stmt): Stmt
    requires Reaches(s, p)
  {
    if p == [] then u
    else
      match p[0]
      case Left => s.(left := Put(s.left, p[1..], u))
      case Right => s.(right := Put(s.right, p[1..], u))
      case Inside => s.(body := Put(s.body, p[1..], u))
  }

  // ---------------------------------------------------------------------------------------------
  // One rule at the root

  /** Neither stores what the other names, and neither is a sequence. */
  ghost predicate Free(a: Stmt, b: Stmt) { !a.Seq? && !b.Seq? && forall n :: !Depend(a, b, n) }

  /** Two neighbours trade places: the last two, or the first two of more. */
  ghost predicate Trade(s: Stmt, t: Stmt) {
    && s.Seq? && t.Seq?
    && ((t == Seq(s.right, s.left) && Free(s.left, s.right))
        || (s.right.Seq? && t == Seq(s.right.left, Seq(s.left, s.right.right)) && Free(s.left, s.right.left)))
  }

  /** A loop splits, or two loops join, where the check passes, hazards are carried and tiles have one size. */
  ghost predicate Split(s: Stmt, t: Stmt) {
    SplitInto(s, t) && !RawHazard(s.body.left, s.body.right, s.loopVar) &&
    SafeBodies(s.body.left, s.body.right, s.loopVar)
  }

  ghost predicate Join(size: string -> pos, l1: Stmt, l2: Stmt, t: Stmt) {
    JoinInto(l1, l2, t) && !RawHazard(l1.body, l2.body, l1.loopVar) && size(l1.tile) == size(l2.tile) &&
    SafeBodies(l1.body, l2.body, l1.loopVar)
  }

  /** One rule on two nodes, or on the first two of more. */
  ghost predicate Rule(size: string -> pos, s: Stmt, t: Stmt) {
    || Trade(s, t) || Split(s, t) || (s.Seq? && Join(size, s.left, s.right, t))
    || TailSplit(s, t) || TailJoin(size, s, t)
  }

  /** The first of two nodes splits. */
  ghost predicate TailSplit(s: Stmt, t: Stmt) {
    s.Seq? && t.Seq? && t.right.Seq? && t.right.right == s.right && Split(s.left, Seq(t.left, t.right.left))
  }

  /** The first two of three nodes join. */
  ghost predicate TailJoin(size: string -> pos, s: Stmt, t: Stmt) {
    s.Seq? && s.right.Seq? && t.Seq? && t.right == s.right.right && Join(size, s.left, s.right.left, t.left)
  }

  lemma RuleIff(size: string -> pos, s: Stmt, t: Stmt)
    ensures Rearranges(size, s, t) || TailRearranges(size, s, t) <==> Rule(size, s, t)
  {
    TradeIff(s, t);
    SplitIff(s, t);
    JoinIff(size, s, t);
  }

  predicate TailSwaps(s: Stmt, t: Stmt) {
    s.Seq? && s.right.Seq? && t.Seq? && t.right.Seq? && t.right.right == s.right.right &&
    Swaps(Seq(s.left, s.right.left), Seq(t.left, t.right.left))
  }

  lemma TradeIff(s: Stmt, t: Stmt)
    ensures Trade(s, t) <==> (Swaps(s, t) || TailSwaps(s, t))
  {
    if s.Seq? {
      ExchangeableIff(s.left, s.right);
      if s.right.Seq? { ExchangeableIff(s.left, s.right.left); }
    }
  }

  lemma SplitIff(s: Stmt, t: Stmt)
    ensures Split(s, t) <==> Splits(s, t)
    ensures TailSplit(s, t) <==>
      FissionTail(s) == Some(t) && SafeBodies(s.left.body.left, s.left.body.right, s.left.loopVar)
  {
    FissionIff(s, t);
    FissionTailIff(s, t);
  }

  lemma JoinIff(size: string -> pos, s: Stmt, t: Stmt)
    ensures s.Seq? && Join(size, s.left, s.right, t) <==> Fuses(size, s, t)
    ensures TailJoin(size, s, t) <==>
      FuseLoopsTail(s) == Some(t) && Fuses(size, Seq(s.left, s.right.left), t.left)
  {
    FuseLoopsIff(s, t);
    FuseLoopsTailIff(s, t);
    if s.Seq? && s.right.Seq? && t.Seq? { FuseLoopsIff(Seq(s.left, s.right.left), t.left); }
  }

  // ---------------------------------------------------------------------------------------------
  // One rule anywhere

  ghost predicate RuleAt(size: string -> pos, s: Stmt, t: Stmt, p: seq<Turn>, u: Stmt) {
    Reaches(s, p) && t == Put(s, p, u) && Rule(size, Below(s, p), u)
  }

  lemma AtRoot(size: string -> pos, s: Stmt, t: Stmt)
    ensures RuleAt(size, s, t, [], t) <==> Rule(size, s, t)
  {
  }

  lemma Extend(size: string -> pos, s: Stmt, t: Stmt, turn: Turn, s': Stmt, t': Stmt, p: seq<Turn>, u: Stmt)
    requires match turn
      case Left => s.Seq? && s.left == s' && t == s.(left := t')
      case Right => s.Seq? && s.right == s' && t == s.(right := t')
      case Inside => s.Loop? && s.body == s' && t == s.(body := t')
    requires RuleAt(size, s', t', p, u)
    ensures RuleAt(size, s, t, [turn] + p, u)
  {
    assert ([turn] + p)[0] == turn && ([turn] + p)[1..] == p;
  }

  /** A step of the rewriting on a statement is one rule at one place. */
  lemma {:induction false} ChangesIff(size: string -> pos, s: Stmt, t: Stmt)
    ensures Changes(size, s, t) <==> exists p, u :: RuleAt(size, s, t, p, u)
    decreases s
  {
    RuleIff(size, s, t);
    AtRoot(size, s, t);
    if s.Seq? && t.Seq? {
      ChangesIff(size, s.left, t.left);
      ChangesIff(size, s.right, t.right);
    }
    if s.Loop? && t.Loop? { ChangesIff(size, s.body, t.body); }
    if Changes(size, s, t) && !Rule(size, s, t) { SomePlace(size, s, t); }
    if p, u :| RuleAt(size, s, t, p, u) { PlaceChanges(size, s, t, p, u); }
  }

  lemma SomePlace(size: string -> pos, s: Stmt, t: Stmt)
    requires Changes(size, s, t) && !Rule(size, s, t)
    requires s.Seq? && t.Seq? && Changes(size, s.left, t.left) ==> exists p, u :: RuleAt(size, s.left, t.left, p, u)
    requires s.Seq? && t.Seq? && Changes(size, s.right, t.right) ==> exists p, u :: RuleAt(size, s.right, t.right, p, u)
    requires s.Loop? && t.Loop? && Changes(size, s.body, t.body) ==> exists p, u :: RuleAt(size, s.body, t.body, p, u)
    ensures exists p, u :: RuleAt(size, s, t, p, u)
  {
    RuleIff(size, s, t);
    if s.Seq? && t.Seq? && t.right == s.right && Changes(size, s.left, t.left) {
      var p, u :| RuleAt(size, s.left, t.left, p, u);
      Extend(size, s, t, Left, s.left, t.left, p, u);
    } else if s.Seq? && t.Seq? && t.left == s.left && Changes(size, s.right, t.right) {
      var p, u :| RuleAt(size, s.right, t.right, p, u);
      Extend(size, s, t, Right, s.right, t.right, p, u);
    } else {
      var p, u :| RuleAt(size, s.body, t.body, p, u);
      Extend(size, s, t, Inside, s.body, t.body, p, u);
    }
  }

  lemma {:induction false} PlaceChanges(size: string -> pos, s: Stmt, t: Stmt, p: seq<Turn>, u: Stmt)
    requires RuleAt(size, s, t, p, u)
    ensures Changes(size, s, t)
    decreases |p|
  {
    RuleIff(size, s, t);
    if p != [] {
      match p[0]
      case Left => PlaceChanges(size, s.left, t.left, p[1..], u);
      case Right => PlaceChanges(size, s.right, t.right, p[1..], u);
      case Inside => PlaceChanges(size, s.body, t.body, p[1..], u);
    }
  }

  // ---------------------------------------------------------------------------------------------
  // Exchanges, and all rules, on the tree of nodes

  ghost predicate TradeAt(s: Stmt, t: Stmt, p: seq<Turn>, u: Stmt) {
    Reaches(s, p) && Inside !in p && t == Put(s, p, u) && Trade(Below(s, p), u)
  }

  lemma ExtendTrade(s: Stmt, t: Stmt, turn: Turn, s': Stmt, t': Stmt, p: seq<Turn>, u: Stmt)
    requires s.Seq? && t.Seq? && TradeAt(s', t', p, u)
    requires (turn == Left && s.left == s' && t == s.(left := t')) ||
      (turn == Right && s.right == s' && t == s.(right := t'))
    ensures TradeAt(s, t, [turn] + p, u)
  {
    assert ([turn] + p)[0] == turn && ([turn] + p)[1..] == p;
  }

  /** An exchange is one trade at one place of the tree. */
  lemma {:induction false} ExchangesIff(s: Stmt, t: Stmt)
    ensures Exchanges(s, t) <==> exists p, u :: TradeAt(s, t, p, u)
    decreases s
  {
    TradeIff(s, t);
    if Trade(s, t) { assert TradeAt(s, t, [], t); }
    if s.Seq? && t.Seq? {
      ExchangesIff(s.left, t.left);
      ExchangesIff(s.right, t.right);
      if t.right == s.right && Exchanges(s.left, t.left) {
        var p, u :| TradeAt(s.left, t.left, p, u);
        ExtendTrade(s, t, Left, s.left, t.left, p, u);
      }
      if t.left == s.left && Exchanges(s.right, t.right) {
        var p, u :| TradeAt(s.right, t.right, p, u);
        ExtendTrade(s, t, Right, s.right, t.right, p, u);
      }
    }
    if p, u :| TradeAt(s, t, p, u) { TradeExchanges(s, t, p, u); }
  }

  lemma {:induction false} TradeExchanges(s: Stmt, t: Stmt, p: seq<Turn>, u: Stmt)
    requires TradeAt(s, t, p, u)
    ensures Exchanges(s, t)
    decreases |p|
  {
    TradeIff(s, t);
    if p != [] {
      assert p[0] in p && forall x :: x in p[1..] ==> x in p;
      match p[0]
      case Left => TradeExchanges(s.left, t.left, p[1..], u);
      case Right => TradeExchanges(s.right, t.right, p[1..], u);
    }
  }

  /** A node splits where both bodies store; two nodes join where they have as many members, which stay apart. */
  ghost predicate NodeSplit(s: Stmt, t: Stmt) {
    Split(s, t) && StoresIn(s.body.left) != [] && StoresIn(s.body.right) != []
  }

  ghost predicate NodeJoin(size: string -> pos, l1: Stmt, l2: Stmt, t: Stmt) {
    Join(size, l1, l2, t) && Fusion.Width(l1) == Fusion.Width(l2) && MembersFree(t)
  }

  ghost predicate NodeRule(size: string -> pos, s: Stmt, t: Stmt) {
    || Trade(s, t) || NodeSplit(s, t) || (s.Seq? && NodeJoin(size, s.left, s.right, t))
    || (s.Seq? && t.Seq? && t.right.Seq? && t.right.right == s.right && NodeSplit(s.left, Seq(t.left, t.right.left)))
    || (s.Seq? && s.right.Seq? && t.Seq? && t.right == s.right.right && NodeJoin(size, s.left, s.right.left, t.left))
  }

  lemma {:induction false} StoresExist(s: Stmt)
    ensures StoresIn(s) == [] <==> WriteSet(s) == {}
    decreases s
  {
    match s
    case Store(_, _, _) =>
    case Loop(_, _, _, _, b) => StoresExist(b);
    case Seq(l, r) =>
      StoresExist(l);
      StoresExist(r);
    case Block(ss) => StoresExistAll(ss);
  }

  lemma {:induction false} StoresExistAll(ss: seq<Stmt>)
    ensures StoresInAll(ss) == [] <==> WriteSet(Block(ss)) == {}
    decreases ss
  {
    if ss != [] {
      StoresExist(ss[0]);
      StoresExistAll(ss[1..]);
      assert forall c :: c in ss <==> c == ss[0] || c in ss[1..];
      assert WriteSet(Block(ss)) == WriteSet(ss[0]) + WriteSet(Block(ss[1..]));
    }
  }

  lemma NodeSplitIff(s: Stmt, t: Stmt)
    ensures NodeSplit(s, t) <==> NodeSplits(s, t)
  {
    SplitIff(s, t);
    if s.Loop? && s.body.Seq? {
      StoresExist(s.body.left);
      StoresExist(s.body.right);
    }
  }

  lemma NodeRuleIff(size: string -> pos, s: Stmt, t: Stmt)
    ensures (Swaps(s, t) || NodeSplits(s, t) || NodeFuses(size, s, t) || FirstTwoChange(size, s, t)) <==>
      NodeRule(size, s, t)
  {
    TradeIff(s, t);
    SplitIff(s, t);
    JoinIff(size, s, t);
    NodeSplitIff(s, t);
    if s.Seq? && t.Seq? {
      if t.right.Seq? {
        NodeSplitIff(s.left, Seq(t.left, t.right.left));
        SplitIff(s.left, Seq(t.left, t.right.left));
      }
      if s.right.Seq? { JoinIff(size, Seq(s.left, s.right.left), t.left); }
    }
  }

  /** A rule on nodes at a place between the nodes, or any rule at a place inside one. */
  ghost predicate NodeRuleAt(size: string -> pos, s: Stmt, t: Stmt, p: seq<Turn>, u: Stmt) {
    Reaches(s, p) && t == Put(s, p, u) &&
    if Inside in p then Rule(size, Below(s, p), u) else NodeRule(size, Below(s, p), u)
  }

  lemma ExtendNode(size: string -> pos, s: Stmt, t: Stmt, turn: Turn, s': Stmt, t': Stmt, p: seq<Turn>, u: Stmt)
    requires s.Seq? && t.Seq? && NodeRuleAt(size, s', t', p, u)
    requires (turn == Left && s.left == s' && t == s.(left := t')) ||
      (turn == Right && s.right == s' && t == s.(right := t'))
    ensures NodeRuleAt(size, s, t, [turn] + p, u)
  {
    assert ([turn] + p)[0] == turn && ([turn] + p)[1..] == p;
    assert Inside in [turn] + p <==> Inside in p;
  }

  lemma InsideNodeAt(size: string -> pos, s: Stmt, t: Stmt)
    requires s.Loop? && t.Loop? && t == s.(body := t.body)
    ensures Changes(size, s.body, t.body) <==> exists p, u :: NodeRuleAt(size, s, t, [Inside] + p, u)
  {
    ChangesIff(size, s.body, t.body);
    forall p, u ensures NodeRuleAt(size, s, t, [Inside] + p, u) <==> RuleAt(size, s.body, t.body, p, u) {
      assert ([Inside] + p)[0] == Inside && ([Inside] + p)[1..] == p && Inside in [Inside] + p;
    }
    if p, u :| RuleAt(size, s.body, t.body, p, u) { assert NodeRuleAt(size, s, t, [Inside] + p, u); }
  }

  /** A step of the rewriting on a program is one rule at one place. */
  lemma {:induction false} TreeChangesIff(size: string -> pos, s: Stmt, t: Stmt)
    ensures TreeChanges(size, s, t) <==> exists p, u :: NodeRuleAt(size, s, t, p, u)
    decreases s
  {
    NodeRuleIff(size, s, t);
    if NodeRule(size, s, t) { assert NodeRuleAt(size, s, t, [], t); }
    if s.Seq? && t.Seq? {
      TreeChangesIff(size, s.left, t.left);
      TreeChangesIff(size, s.right, t.right);
      if t.right == s.right && TreeChanges(size, s.left, t.left) {
        var p, u :| NodeRuleAt(size, s.left, t.left, p, u);
        ExtendNode(size, s, t, Left, s.left, t.left, p, u);
      }
      if t.left == s.left && TreeChanges(size, s.right, t.right) {
        var p, u :| NodeRuleAt(size, s.right, t.right, p, u);
        ExtendNode(size, s, t, Right, s.right, t.right, p, u);
      }
    }
    if s.Loop? && t.Loop? && t == s.(body := t.body) && Changes(size, s.body, t.body) {
      InsideNodeAt(size, s, t);
      var p, u :| NodeRuleAt(size, s, t, [Inside] + p, u);
      assert NodeRuleAt(size, s, t, [Inside] + p, u);
    }
    if p, u :| NodeRuleAt(size, s, t, p, u) { PlaceChangesTree(size, s, t, p, u); }
  }

  lemma {:induction false} PlaceChangesTree(size: string -> pos, s: Stmt, t: Stmt, p: seq<Turn>, u: Stmt)
    requires NodeRuleAt(size, s, t, p, u)
    ensures TreeChanges(size, s, t)
    decreases |p|
  {
    NodeRuleIff(size, s, t);
    if p != [] {
      assert Inside in p <==> p[0] == Inside || Inside in p[1..];
      match p[0]
      case Left => PlaceChangesTree(size, s.left, t.left, p[1..], u);
      case Right => PlaceChangesTree(size, s.right, t.right, p[1..], u);
      case Inside => PlaceChanges(size, s.body, t.body, p[1..], u);
    }
  }
}
