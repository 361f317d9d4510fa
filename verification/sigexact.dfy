/** When two calls have one signature, exactly. */
module SignatureExact {
  import opened Ast
  import opened Text
  import opened Sexps
  import opened Signatures

  // Two roots have the same signature if and only if one is the other with its tensors renamed: loaded
  // tensors among each other and stored tensors among each other, different ones to different ones
  // (SameSignatureIff).

  // ---------------------------------------------------------------------------------------------
  // Renaming tensors

  function Renamed(m: map<Name, Name>, n: Name): Name { if n in m then m[n] else n }

  function RenameLoads(e: Expr, m: map<Name, Name>): Expr
    decreases e, 1
  {
    match e
    case Load(t, ix) => Load(Renamed(m, t), ix)
    case Const(_) => e
    case Arange(_) => e
    case Op(op, args) => Op(op, RenameAllLoads(args, m))
  }

  function RenameAllLoads(args: seq<Expr>, m: map<Name, Name>): (r: seq<Expr>)
    ensures |r| == |args|
    decreases args, 0
  {
    if args == [] then [] else [RenameLoads(args[0], m)] + RenameAllLoads(args[1..], m)
  }

  /** The same statement on other tensors. */
  function RenameTensors(s: Stmt, rd: map<Name, Name>, wr: map<Name, Name>): Stmt
    decreases s, 1
  {
    match s
    case Store(t, v, ix) => Store(Renamed(wr, t), RenameLoads(v, rd), ix)
    case Loop(lo, hi, tile, x, b) => Loop(lo, hi, tile, x, RenameTensors(b, rd, wr))
    case Seq(l, r) => Seq(RenameTensors(l, rd, wr), RenameTensors(r, rd, wr))
    case Block(ss) => Block(RenameAllTensors(ss, rd, wr))
  }

  function RenameAllTensors(ss: seq<Stmt>, rd: map<Name, Name>, wr: map<Name, Name>): (r: seq<Stmt>)
    ensures |r| == |ss|
    decreases ss, 0
  {
    if ss == [] then [] else [RenameTensors(ss[0], rd, wr)] + RenameAllTensors(ss[1..], rd, wr)
  }

  /** Different names of the set get different names. */
  predicate TellsApart(m: map<Name, Name>, names: set<Name>) {
    forall a, b :: a in names && b in names && Renamed(m, a) == Renamed(m, b) ==> a == b
  }

  ghost predicate Renames(s: Stmt, t: Stmt, rd: map<Name, Name>, wr: map<Name, Name>) {
    TellsApart(rd, StmtLoads(s)) && TellsApart(wr, StmtStores(s)) && t == RenameTensors(s, rd, wr)
  }

  // ---------------------------------------------------------------------------------------------
  // Renaming keeps the signature

  function Mapped(names: seq<Name>, m: map<Name, Name>): (r: seq<Name>)
    ensures |r| == |names|
  {
    seq(|names|, k requires 0 <= k < |names| => Renamed(m, names[k]))
  }

  predicate Among(names: seq<Name>, all: set<Name>) { forall n :: n in names ==> n in all }

  lemma {:induction false} MappedSlot(names: seq<Name>, n: Name, m: map<Name, Name>, all: set<Name>)
    requires TellsApart(m, all) && Among(names, all) && n in all
    ensures SlotOf(Mapped(names, m), Renamed(m, n)) == SlotOf(names, n)
    ensures AddName(Mapped(names, m), Renamed(m, n)) == Mapped(AddName(names, n), m) && Among(AddName(names, n), all)
  {
    if names != [] {
      assert Mapped(names, m)[1..] == Mapped(names[1..], m);
      MappedSlot(names[1..], n, m, all);
    }
    assert Mapped(names + [n], m) == Mapped(names, m) + [Renamed(m, n)];
    if Renamed(m, n) in Mapped(names, m) {
      var k :| 0 <= k < |names| && Renamed(m, names[k]) == Renamed(m, n);
      assert names[k] in names;
    }
    if n in names {
      var k :| 0 <= k < |names| && names[k] == n;
      assert Mapped(names, m)[k] == Renamed(m, n);
    }
  }

  /** A renamed part of a call spells the same, at renamed slots, and leaves renamed slots. */
  ghost predicate SpellsAlike(e: Expr, rd: seq<Name>, m: map<Name, Name>, all: set<Name>) {
    && SigExpr(RenameLoads(e, m), Mapped(rd, m)) == SigExpr(e, rd)
    && ReadsAfter(RenameLoads(e, m), Mapped(rd, m)) == Mapped(ReadsAfter(e, rd), m) && Among(ReadsAfter(e, rd), all)
  }

  lemma {:induction false} ExprAlike(e: Expr, rd: seq<Name>, m: map<Name, Name>, all: set<Name>)
    requires TellsApart(m, all) && Among(rd, all) && Loads(e) <= all
    ensures SpellsAlike(e, rd, m, all)
    decreases e, 1
  {
    match e
    case Load(t, _) => MappedSlot(rd, t, m, all);
    case Const(_) =>
    case Arange(_) =>
    case Op(op, args) =>
      forall a, n | a in args && n in Loads(a) ensures n in all { assert n in Loads(e); }
      ExprsAlike(args, rd, m, all);
  }

  lemma {:induction false} ExprsAlike(args: seq<Expr>, rd: seq<Name>, m: map<Name, Name>, all: set<Name>)
    requires TellsApart(m, all) && Among(rd, all) && forall a, n :: a in args && n in Loads(a) ==> n in all
    ensures SigExprs(RenameAllLoads(args, m), Mapped(rd, m)) == SigExprs(args, rd)
    ensures ReadsAfterAll(RenameAllLoads(args, m), Mapped(rd, m)) == Mapped(ReadsAfterAll(args, rd), m)
    ensures Among(ReadsAfterAll(args, rd), all)
    decreases args, 0
  {
    if args != [] {
      assert args[0] in args;
      ExprAlike(args[0], rd, m, all);
      ExprsAlike(args[1..], ReadsAfter(args[0], rd), m, all);
      assert RenameAllLoads(args, m)[1..] == RenameAllLoads(args[1..], m);
    }
  }

  function MappedSlots(st: Slots, rd: map<Name, Name>, wr: map<Name, Name>): Slots {
    Slots(Mapped(st.rd, rd), Mapped(st.wr, wr))
  }

  /** The renamings tell apart all loaded and all stored tensors of a program. */
  datatype Renaming = Renaming(rd: map<Name, Name>, wr: map<Name, Name>, loads: set<Name>, stores: set<Name>)
  {
    predicate Valid() { TellsApart(rd, loads) && TellsApart(wr, stores) }
    predicate Knows(st: Slots) { Among(st.rd, loads) && Among(st.wr, stores) }
    function Map(st: Slots): Slots { MappedSlots(st, rd, wr) }
  }

  lemma {:induction false} StmtAlike(s: Stmt, st: Slots, r: Renaming)
    requires r.Valid() && r.Knows(st) && StmtLoads(s) <= r.loads && StmtStores(s) <= r.stores
    ensures SigStmt(RenameTensors(s, r.rd, r.wr), r.Map(st)) == SigStmt(s, st)
    ensures SlotsAfter(RenameTensors(s, r.rd, r.wr), r.Map(st)) == r.Map(SlotsAfter(s, st)) &&
      r.Knows(SlotsAfter(s, st))
    decreases s, 1
  {
    match s
    case Store(t, v, _) =>
      MappedSlot(st.wr, t, r.wr, r.stores);
      ExprAlike(v, st.rd, r.rd, r.loads);
    case Loop(_, _, _, _, b) => StmtAlike(b, st, r);
    case Seq(a, b) =>
      StmtAlike(a, st, r);
      StmtAlike(b, SlotsAfter(a, st), r);
    case Block(ss) =>
      forall c | c in ss ensures StmtLoads(c) <= r.loads && StmtStores(c) <= r.stores {
        forall n | n in StmtLoads(c) ensures n in r.loads { assert n in StmtLoads(s); }
        forall n | n in StmtStores(c) ensures n in r.stores { assert n in StmtStores(s); }
      }
      StmtsAlike(ss, st, r);
  }

  lemma {:induction false} StmtsAlike(ss: seq<Stmt>, st: Slots, r: Renaming)
    requires r.Valid() && r.Knows(st) && forall c :: c in ss ==> StmtLoads(c) <= r.loads && StmtStores(c) <= r.stores
    ensures SigStmts(RenameAllTensors(ss, r.rd, r.wr), r.Map(st)) == SigStmts(ss, st)
    ensures SlotsAfterAll(RenameAllTensors(ss, r.rd, r.wr), r.Map(st)) == r.Map(SlotsAfterAll(ss, st))
    ensures r.Knows(SlotsAfterAll(ss, st))
    decreases ss, 0
  {
    if ss != [] {
      assert ss[0] in ss;
      StmtAlike(ss[0], st, r);
      StmtsAlike(ss[1..], SlotsAfter(ss[0], st), r);
      assert RenameAllTensors(ss, r.rd, r.wr)[1..] == RenameAllTensors(ss[1..], r.rd, r.wr);
    }
  }

  // ---------------------------------------------------------------------------------------------
  // Roots with one signature are renamed

  /** Each name of the first list goes to the name at its place in the second. */
  function Zipped(from: seq<Name>, upto: seq<Name>): map<Name, Name>
    requires |from| == |upto|
  {
    map n | n in from :: upto[SlotOf(from, n)]
  }

  function Own(names: seq<Name>): nat -> Name { (slot: nat) => if slot < |names| then names[slot] else "" }

  lemma {:induction false} SlotInPrefix(names: seq<Name>, n: Name, all: seq<Name>)
    requires AddName(names, n) <= all
    ensures SlotOf(names, n) == SlotOf(all, n) < |all|
  {
    if names == [] {
      assert all[0] == AddName(names, n)[0];
    } else {
      assert all[0] == AddName(names, n)[0] == names[0];
      if names[0] != n {
        assert AddName(names, n)[1..] == AddName(names[1..], n) && AddName(names, n)[1..] <= all[1..];
        SlotInPrefix(names[1..], n, all[1..]);
      }
    }
  }

  lemma {:induction false} ExprRenamed(e: Expr, rd: seq<Name>, from: seq<Name>, upto: seq<Name>)
    requires |from| == |upto| && ReadsAfter(e, rd) <= from && forall n :: n in upto ==> OneName(n)
    ensures LaneExpr(RewriteExpr(e, rd, Own(upto)), 0) == RenameLoads(e, Zipped(from, upto))
    ensures Loads(e) <= Zipped(from, upto).Keys
    decreases e, 1
  {
    match e
    case Load(t, _) =>
      SlotInPrefix(rd, t, from);
      SplitOne(upto[SlotOf(from, t)]);
    case Const(_) =>
    case Arange(_) =>
    case Op(_, args) => ExprsRenamed(args, rd, from, upto);
  }

  lemma {:induction false} ExprsRenamed(args: seq<Expr>, rd: seq<Name>, from: seq<Name>, upto: seq<Name>)
    requires |from| == |upto| && ReadsAfterAll(args, rd) <= from && forall n :: n in upto ==> OneName(n)
    ensures LaneExprs(RewriteExprs(args, rd, Own(upto)), 0) == RenameAllLoads(args, Zipped(from, upto))
    ensures forall a :: a in args ==> Loads(a) <= Zipped(from, upto).Keys
    decreases args, 0
  {
    if args != [] {
      ReadsGrowAll(args[1..], ReadsAfter(args[0], rd));
      ExprRenamed(args[0], rd, from, upto);
      ExprsRenamed(args[1..], ReadsAfter(args[0], rd), from, upto);
      assert RewriteExprs(args, rd, Own(upto))[1..] == RewriteExprs(args[1..], ReadsAfter(args[0], rd), Own(upto));
      assert forall a :: a in args ==> a == args[0] || a in args[1..];
    }
  }

  lemma {:induction false} StmtRenamed(s: Stmt, st: Slots, from: Slots, upto: Slots)
    requires |from.rd| == |upto.rd| && |from.wr| == |upto.wr| && SingleNames(upto)
    requires SlotsAfter(s, st).rd <= from.rd && SlotsAfter(s, st).wr <= from.wr
    ensures Lane(Rewrite(s, st, Own(upto.rd), Own(upto.wr)), 0) ==
      RenameTensors(s, Zipped(from.rd, upto.rd), Zipped(from.wr, upto.wr))
    ensures StmtLoads(s) <= Zipped(from.rd, upto.rd).Keys && StmtStores(s) <= Zipped(from.wr, upto.wr).Keys
    decreases s, 1
  {
    match s
    case Store(t, v, _) =>
      ExprRenamed(v, st.rd, from.rd, upto.rd);
      SlotInPrefix(st.wr, t, from.wr);
      SplitOne(upto.wr[SlotOf(from.wr, t)]);
    case Loop(_, _, _, _, b) => StmtRenamed(b, st, from, upto);
    case Seq(a, b) =>
      SlotsGrow(b, SlotsAfter(a, st));
      StmtRenamed(a, st, from, upto);
      StmtRenamed(b, SlotsAfter(a, st), from, upto);
    case Block(ss) => StmtsRenamed(ss, st, from, upto);
  }

  lemma {:induction false} StmtsRenamed(ss: seq<Stmt>, st: Slots, from: Slots, upto: Slots)
    requires |from.rd| == |upto.rd| && |from.wr| == |upto.wr| && SingleNames(upto)
    requires SlotsAfterAll(ss, st).rd <= from.rd && SlotsAfterAll(ss, st).wr <= from.wr
    ensures LaneAll(RewriteAll(ss, st, Own(upto.rd), Own(upto.wr)), 0) ==
      RenameAllTensors(ss, Zipped(from.rd, upto.rd), Zipped(from.wr, upto.wr))
    ensures forall c :: c in ss ==>
      StmtLoads(c) <= Zipped(from.rd, upto.rd).Keys && StmtStores(c) <= Zipped(from.wr, upto.wr).Keys
    decreases ss, 0
  {
    if ss != [] {
      var st' := SlotsAfter(ss[0], st);
      SlotsGrowAll(ss[1..], st');
      StmtRenamed(ss[0], st, from, upto);
      StmtsRenamed(ss[1..], st', from, upto);
      assert RewriteAll(ss, st, Own(upto.rd), Own(upto.wr))[1..] ==
        RewriteAll(ss[1..], st', Own(upto.rd), Own(upto.wr));
      assert forall c :: c in ss ==> c == ss[0] || c in ss[1..];
    }
  }

  predicate Different(names: seq<Name>) { forall a, b :: 0 <= a < b < |names| ==> names[a] != names[b] }

  lemma {:induction false} ReadsDifferent(e: Expr, rd: seq<Name>)
    requires Different(rd)
    ensures Different(ReadsAfter(e, rd))
    decreases e, 1
  {
    if e.Op? { AllReadsDifferent(e.args, rd); }
  }

  lemma {:induction false} AllReadsDifferent(args: seq<Expr>, rd: seq<Name>)
    requires Different(rd)
    ensures Different(ReadsAfterAll(args, rd))
    decreases args, 0
  {
    if args != [] {
      ReadsDifferent(args[0], rd);
      AllReadsDifferent(args[1..], ReadsAfter(args[0], rd));
    }
  }

  lemma {:induction false} SlotsDifferent(s: Stmt, st: Slots)
    requires Different(st.rd) && Different(st.wr)
    ensures Different(SlotsAfter(s, st).rd) && Different(SlotsAfter(s, st).wr)
    decreases s, 1
  {
    match s
    case Store(_, v, _) => ReadsDifferent(v, st.rd);
    case Loop(_, _, _, _, b) => SlotsDifferent(b, st);
    case Seq(a, b) =>
      SlotsDifferent(a, st);
      SlotsDifferent(b, SlotsAfter(a, st));
    case Block(ss) => AllSlotsDifferent(ss, st);
  }

  lemma {:induction false} AllSlotsDifferent(ss: seq<Stmt>, st: Slots)
    requires Different(st.rd) && Different(st.wr)
    ensures Different(SlotsAfterAll(ss, st).rd) && Different(SlotsAfterAll(ss, st).wr)
    decreases ss, 0
  {
    if ss != [] {
      SlotsDifferent(ss[0], st);
      AllSlotsDifferent(ss[1..], SlotsAfter(ss[0], st));
    }
  }

  lemma ZippedTellsApart(from: seq<Name>, upto: seq<Name>)
    requires |from| == |upto| && Different(upto)
    ensures TellsApart(Zipped(from, upto), Zipped(from, upto).Keys)
  {
  }

  /** Roots with one signature are renamed by their slots. */
  lemma SameSignatureRenames(s: Stmt, t: Stmt) returns (rd: map<Name, Name>, wr: map<Name, Name>)
    requires NamedStmt(s) && NamedStmt(t) && Signature(s) == Signature(t)
    ensures Renames(s, t, rd, wr)
  {
    var none := Slots([], []);
    var S, T := SlotsAfter(s, none), SlotsAfter(t, none);
    SlotsNamed(t, none);
    forall slot | 0 <= slot < |T.rd| ensures Component(Own(T.rd)(slot), 0) == T.rd[slot] { SplitOne(T.rd[slot]); }
    forall slot | 0 <= slot < |T.wr| ensures Component(Own(T.wr)(slot), 0) == T.wr[slot] { SplitOne(T.wr[slot]); }
    SignatureLossless(s, t, Own(T.rd), Own(T.wr), 0);
    StmtRenamed(s, none, S, T);
    SlotsDifferent(t, none);
    rd, wr := Zipped(S.rd, T.rd), Zipped(S.wr, T.wr);
    ZippedTellsApart(S.rd, T.rd);
    ZippedTellsApart(S.wr, T.wr);
  }

  /** Two roots have one signature exactly when one is the other on other tensors, loaded ones and stored
      ones renamed each without making two of them one. */
  lemma SameSignatureIff(s: Stmt, t: Stmt)
    requires NamedStmt(s) && NamedStmt(t)
    ensures Signature(s) == Signature(t) <==> exists rd, wr :: Renames(s, t, rd, wr)
  {
    if Signature(s) == Signature(t) {
      var rd, wr := SameSignatureRenames(s, t);
    }
    if rd, wr :| Renames(s, t, rd, wr) {
      var none := Slots([], []);
      StmtAlike(s, none, Renaming(rd, wr, StmtLoads(s), StmtStores(s)));
      assert MappedSlots(none, rd, wr) == none;
    }
  }
}
