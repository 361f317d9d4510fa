/** Call signatures: the text of a call's root with tensor names replaced by slot numbers
    (`_analyze_call_pattern`), and the rewriting that gives the slots joined names.
    Main result: SignatureLossless.  Two roots with one signature text have the same skeleton and
    the same number of slots, so that putting joined names into the slots of one root and taking
    the k-th component of every name gives back the other root. */
module Signatures {
  import opened Ast
  import opened Text
  import opened Sexps

  /** The names met so far, in slot order. */
  datatype Slots = Slots(rd: seq<Name>, wr: seq<Name>)

  function SlotOf(names: seq<Name>, n: Name): (k: nat)
    ensures k <= |names|
    ensures k < |names| <==> n in names
    ensures k < |names| ==> names[k] == n
  {
    if names == [] then 0 else if names[0] == n then 0 else 1 + SlotOf(names[1..], n)
  }

  function AddName(names: seq<Name>, n: Name): seq<Name> {
    if n in names then names else names + [n]
  }

  function ReadsAfter(e: Expr, rd: seq<Name>): seq<Name>
    decreases e, 1
  {
    match e
    case Load(t, _) => AddName(rd, t)
    case Const(_) => rd
    case Arange(_) => rd
    case Op(_, args) => ReadsAfterAll(args, rd)
  }

  function ReadsAfterAll(args: seq<Expr>, rd: seq<Name>): seq<Name>
    decreases args, 0
  {
    if args == [] then rd else ReadsAfterAll(args[1..], ReadsAfter(args[0], rd))
  }

  function SlotsAfter(s: Stmt, st: Slots): Slots
    decreases s, 1
  {
    match s
    case Store(t, v, _) => Slots(ReadsAfter(v, st.rd), AddName(st.wr, t))
    case Loop(_, _, _, _, b) => SlotsAfter(b, st)
    case Seq(l, r) => SlotsAfter(r, SlotsAfter(l, st))
    case Block(ss) => SlotsAfterAll(ss, st)
  }

  function SlotsAfterAll(ss: seq<Stmt>, st: Slots): Slots
    decreases ss, 0
  {
    if ss == [] then st else SlotsAfterAll(ss[1..], SlotsAfter(ss[0], st))
  }

  // ---------------------------------------------------------------------------------------------
  // Spelling

  function Words1(a: string): seq<Sexp> { [Sym(a)] }

  /** What is written before the operands of an operator, and after them. */
  function Head(op: Oper): seq<Sexp> {
    match op
    case Add => Words1("+") case Sub => Words1("-") case Mul => Words1("*") case Div => Words1("/")
    case Max => Words1("max") case Min => Words1("min") case Matmul => Words1("@")
    case Exp => Words1("exp") case Sqr => Words1("sqr") case Sqrt => Words1("sqrt")
    case Sigmoid => Words1("sigmoid")
    case Cast(d) => [Sym("cast"), Sym(d)]
    case ReduceSum(_) => Words1("rsum") case ReduceMax(_) => Words1("rmax") case ReduceMin(_) => Words1("rmin")
    case Broadcast(_) => Words1("bcast") case Concat(_) => Words1("concat")
    case Permute3(_, _, _) => Words1("permute3")
    case Squeeze(_) => Words1("squeeze") case Unsqueeze(_) => Words1("unsqueeze")
    case GenericBinary(o) => Words1(o)
    case GenericCall(f) => Words1(f)
  }

  function Tail(op: Oper): seq<Sexp> {
    match op
    case ReduceSum(a) => [Sym(IntText(a))]
    case ReduceMax(a) => [Sym(IntText(a))]
    case ReduceMin(a) => [Sym(IntText(a))]
    case Broadcast(a) => [Sym(IntText(a))]
    case Concat(a) => [Sym(IntText(a))]
    case Permute3(a, b, c) => [Sym(IntText(a)), Sym(IntText(b)), Sym(IntText(c))]
    case Squeeze(a) => [Sym(IntText(a))]
    case Unsqueeze(a) => [Sym(IntText(a))]
    case _ => []
  }

  const BINARY_NAMES: seq<string> := ["//", "%", "and", "or", "==", "!=", "<", "<=", ">", ">="]

  const BUILTIN_NAMES: seq<string> := [
    "+", "-", "*", "/", "max", "min", "@", "exp", "sqr", "sqrt", "sigmoid", "cast",
    "rsum", "rmax", "rmin", "bcast", "concat", "permute3", "squeeze", "unsqueeze", "load", "arange"]

  /** The generic constructors are for names no other constructor spells; a binary name is one the
      lowering produces. */
  predicate NamedOp(op: Oper) {
    match op
    case Cast(d) => CleanWord(d)
    case GenericBinary(o) => o in BINARY_NAMES
    case GenericCall(f) => CleanWord(f) && f !in BINARY_NAMES && f !in BUILTIN_NAMES
    case _ => true
  }

  function SigAtom(a: Atom): Sexp {
    match a
    case Tile(x) => List([Sym("tile"), Sym(x)])
    case TileOffset(x, k) => List([Sym("shifted_tile"), Sym(x), Sym(IntText(k))])
    case ConstTile(s, n) => List([Sym("const_tile"), Sym(IntText(s)), Sym(IntText(n))])
    case FullTile => Sym("fulltile")
    case Elem(x) => List([Sym("elem"), Sym(x)])
  }

  function SigIndex(ix: Index): Sexp {
    List([Sym("index")] + seq(|ix|, k requires 0 <= k < |ix| => SigAtom(ix[k])))
  }

  function SigBound(b: Bound): Sexp {
    match b
    case Num(n) => Sym(IntText(n))
    case VarRef(x) => Sym(x)
  }

  function SigExpr(e: Expr, rd: seq<Name>): Sexp
    decreases e, 1
  {
    match e
    case Load(t, ix) => List([Sym("load"), Sym("R" + NatText(SlotOf(rd, t))), SigIndex(ix)])
    case Const(c) => Sym(c)
    case Arange(x) => List([Sym("arange"), Sym(x)])
    case Op(op, args) => List(Head(op) + SigExprs(args, rd) + Tail(op))
  }

  function SigExprs(args: seq<Expr>, rd: seq<Name>): (r: seq<Sexp>)
    ensures |r| == |args|
    decreases args, 0
  {
    if args == [] then []
    else [SigExpr(args[0], rd)] + SigExprs(args[1..], ReadsAfter(args[0], rd))
  }

  function SigStmt(s: Stmt, st: Slots): Sexp
    decreases s, 1
  {
    match s
    case Store(t, v, ix) =>
      List([Sym("store"), Sym("W" + NatText(SlotOf(st.wr, t))), SigExpr(v, st.rd), SigIndex(ix)])
    case Loop(lo, hi, tile, x, b) =>
      List([Sym("loop"), SigBound(lo), SigBound(hi), Sym(tile), Sym(x), SigStmt(b, st)])
    case Seq(l, r) => List([Sym("seq"), SigStmt(l, st), SigStmt(r, SlotsAfter(l, st))])
    case Block(ss) => List([Sym("block")] + SigStmts(ss, st))
  }

  function SigStmts(ss: seq<Stmt>, st: Slots): (r: seq<Sexp>)
    ensures |r| == |ss|
    decreases ss, 0
  {
    if ss == [] then [] else [SigStmt(ss[0], st)] + SigStmts(ss[1..], SlotsAfter(ss[0], st))
  }

  /** The signature text; the source puts a space after the head of every list. */
  function SigText(e: Sexp): string
    decreases e, 1
  {
    match e
    case Sym(t) => t
    case List(es) => if es == [] then "()" else "(" + SigText(es[0]) + " " + SigTexts(es[1..]) + ")"
  }

  function SigTexts(es: seq<Sexp>): string
    decreases es, 0
  {
    if es == [] then ""
    else if |es| == 1 then SigText(es[0])
    else SigText(es[0]) + " " + SigTexts(es[1..])
  }

  function Signature(root: Stmt): string {
    SigText(SigStmt(root, Slots([], [])))
  }

  // ---------------------------------------------------------------------------------------------
  // Which roots are spelled unambiguously

  predicate NamedAtom(a: Atom) {
    match a
    case Tile(x) => CleanWord(x)
    case TileOffset(x, _) => CleanWord(x)
    case Elem(x) => CleanWord(x)
    case _ => true
  }

  predicate NamedBound(b: Bound) {
    b.VarRef? ==> CleanWord(b.name) && !IsNumeral(b.name)
  }

  predicate NamedExpr(e: Expr) {
    match e
    case Load(t, ix) => OneName(t) && forall a :: a in ix ==> NamedAtom(a)
    case Const(c) => CleanWord(c)
    case Arange(x) => CleanWord(x)
    case Op(op, args) => NamedOp(op) && forall a :: a in args ==> NamedExpr(a)
  }

  predicate NamedStmt(s: Stmt) {
    match s
    case Store(t, v, ix) => OneName(t) && NamedExpr(v) && forall a :: a in ix ==> NamedAtom(a)
    case Loop(lo, hi, tile, x, b) => NamedBound(lo) && NamedBound(hi) && CleanWord(tile) && CleanWord(x) && NamedStmt(b)
    case Seq(l, r) => NamedStmt(l) && NamedStmt(r)
    case Block(ss) => forall c :: c in ss ==> NamedStmt(c)
  }

  // ---------------------------------------------------------------------------------------------
  // Equal signature texts mean equal signature trees

  lemma {:induction false} SigTextTokens(e: Sexp)
    requires Clean(e)
    ensures Tokens(SigText(e)) == TreeTokens(e)
    decreases e, 1
  {
    match e
    case Sym(t) => CleanWordTokens(t);
    case List(es) =>
      if es == [] {
        StringifyTokens(e);
        assert Stringify(e) == "()";
      } else {
        SigTextTokens(es[0]);
        SigTextsTokens(es[1..]);
        var inside := SigText(es[0]) + " " + SigTexts(es[1..]);
        TokensAtSpace(SigText(es[0]), ' ', SigTexts(es[1..]));
        Wrapped("", inside);
        assert SigText(e) == "" + "(" + inside + ")";
      }
  }

  lemma {:induction false} SigTextsTokens(es: seq<Sexp>)
    requires forall x :: x in es ==> Clean(x)
    ensures Tokens(SigTexts(es)) == AllTokens(es)
    decreases es, 0
  {
    if es != [] {
      SigTextTokens(es[0]);
      SigTextsTokens(es[1..]);
      if |es| > 1 {
        TokensAtSpace(SigText(es[0]), ' ', SigTexts(es[1..]));
      }
    }
  }

  lemma SigTextInjective(e: Sexp, f: Sexp)
    requires Clean(e) && Clean(f) && SigText(e) == SigText(f)
    ensures e == f
  {
    SigTextTokens(e);
    SigTextTokens(f);
    ParseTree(e, []);
    ParseTree(f, []);
    assert TreeTokens(e) + [] == TreeTokens(f) + [];
  }

  lemma IntTextClean(n: int)
    ensures CleanWord(IntText(n)) && IsNumeral(IntText(n))
  {
    var k := if n < 0 then -n else n;
    assert NatText(k)[0] in NatText(k);
  }

  lemma SlotClean(c: char, k: nat)
    requires c == 'R' || c == 'W'
    ensures CleanWord([c] + NatText(k))
  {
  }

  /** The constructor a head word stands for, as a position in the builtin names. */
  function Kind(op: Oper): nat {
    match op
    case Add => 0 case Sub => 1 case Mul => 2 case Div => 3 case Max => 4 case Min => 5 case Matmul => 6
    case Exp => 7 case Sqr => 8 case Sqrt => 9 case Sigmoid => 10 case Cast(_) => 11
    case ReduceSum(_) => 12 case ReduceMax(_) => 13 case ReduceMin(_) => 14
    case Broadcast(_) => 15 case Concat(_) => 16 case Permute3(_, _, _) => 17
    case Squeeze(_) => 18 case Unsqueeze(_) => 19
    case GenericBinary(_) => 20 case GenericCall(_) => 21
  }

  lemma BuiltinNamesDistinct()
    ensures forall a, b :: 0 <= a < b < |BUILTIN_NAMES| ==> BUILTIN_NAMES[a] != BUILTIN_NAMES[b]
    ensures forall w :: w in BUILTIN_NAMES ==> w !in BINARY_NAMES
  {
  }

  lemma WordsAreCleanNames()
    ensures forall w :: w in BUILTIN_NAMES ==> CleanWord(w)
    ensures forall w :: w in BINARY_NAMES ==> CleanWord(w)
  {
    forall k | 0 <= k < |BUILTIN_NAMES| ensures CleanWord(BUILTIN_NAMES[k]) { }
    forall k | 0 <= k < |BINARY_NAMES| ensures CleanWord(BINARY_NAMES[k]) { }
  }

  lemma HeadWord(op: Oper)
    ensures Kind(op) < 20 ==> Head(op)[0].text == BUILTIN_NAMES[Kind(op)]
    ensures |Head(op)| == if op.Cast? then 2 else 1
  {
  }

  lemma CleanAtom(a: Atom)
    requires NamedAtom(a)
    ensures Clean(SigAtom(a))
  {
    assert CleanWord("tile") && CleanWord("elem") && CleanWord("fulltile");
    assert CleanWord("shifted_tile") && CleanWord("const_tile");
    match a
    case Tile(x) => CleanList([Sym("tile"), Sym(x)]);
    case Elem(x) => CleanList([Sym("elem"), Sym(x)]);
    case FullTile =>
    case TileOffset(x, n) =>
      IntTextClean(n);
      CleanList([Sym("shifted_tile"), Sym(x), Sym(IntText(n))]);
    case ConstTile(s, n) =>
      IntTextClean(s);
      IntTextClean(n);
      CleanList([Sym("const_tile"), Sym(IntText(s)), Sym(IntText(n))]);
  }

  lemma CleanList(items: seq<Sexp>)
    requires forall k :: 0 <= k < |items| ==> Clean(items[k])
    ensures Clean(List(items))
  {
  }

  lemma CleanIndex(ix: Index)
    requires forall a :: a in ix ==> NamedAtom(a)
    ensures Clean(SigIndex(ix))
  {
    forall k | 0 <= k < |ix| ensures Clean(SigAtom(ix[k])) { CleanAtom(ix[k]); }
  }

  lemma CleanTail(op: Oper)
    ensures forall x :: x in Tail(op) ==> Clean(x)
  {
    match op
    case ReduceSum(a) => IntTextClean(a);
    case ReduceMax(a) => IntTextClean(a);
    case ReduceMin(a) => IntTextClean(a);
    case Broadcast(a) => IntTextClean(a);
    case Concat(a) => IntTextClean(a);
    case Squeeze(a) => IntTextClean(a);
    case Unsqueeze(a) => IntTextClean(a);
    case Permute3(a, b, c) => IntTextClean(a); IntTextClean(b); IntTextClean(c);
    case _ =>
  }

  lemma CleanHead(op: Oper)
    requires NamedOp(op)
    ensures forall x :: x in Head(op) ==> Clean(x)
  {
    WordsAreCleanNames();
    HeadWord(op);
    assert Clean(Head(op)[0]);
    if op.Cast? { assert Clean(Head(op)[1]); }
  }

  lemma {:induction false} CleanExpr(e: Expr, rd: seq<Name>)
    requires NamedExpr(e)
    ensures Clean(SigExpr(e, rd))
    decreases e, 1
  {
    match e
    case Load(t, ix) =>
      CleanIndex(ix);
      SlotClean('R', SlotOf(rd, t));
    case Const(_) =>
    case Arange(_) =>
    case Op(op, args) =>
      CleanHead(op);
      CleanTail(op);
      CleanExprs(args, rd);
  }

  lemma {:induction false} CleanExprs(args: seq<Expr>, rd: seq<Name>)
    requires forall a :: a in args ==> NamedExpr(a)
    ensures forall x :: x in SigExprs(args, rd) ==> Clean(x)
    decreases args, 0
  {
    if args != [] {
      CleanExpr(args[0], rd);
      CleanExprs(args[1..], ReadsAfter(args[0], rd));
    }
  }

  lemma CleanBound(b: Bound)
    requires NamedBound(b)
    ensures Clean(SigBound(b))
  {
    if b.Num? { IntTextClean(b.n); }
  }

  lemma {:induction false} CleanStmt(s: Stmt, st: Slots)
    requires NamedStmt(s)
    ensures Clean(SigStmt(s, st))
    decreases s, 1
  {
    match s
    case Store(t, v, ix) => CleanStore(t, v, ix, st);
    case Loop(lo, hi, tile, x, b) =>
      CleanStmt(b, st);
      CleanLoop(lo, hi, tile, x, SigStmt(b, st));
    case Seq(l, r) =>
      CleanStmt(l, st);
      CleanStmt(r, SlotsAfter(l, st));
      CleanSeq(SigStmt(l, st), SigStmt(r, SlotsAfter(l, st)));
    case Block(ss) => CleanStmts(ss, st);
  }

  lemma CleanStore(t: Name, v: Expr, ix: Index, st: Slots)
    requires NamedStmt(Store(t, v, ix))
    ensures Clean(SigStmt(Store(t, v, ix), st))
  {
    CleanIndex(ix);
    CleanExpr(v, st.rd);
    SlotClean('W', SlotOf(st.wr, t));
  }

  lemma CleanLoop(lo: Bound, hi: Bound, tile: string, x: Name, body: Sexp)
    requires NamedStmt(Loop(lo, hi, tile, x, Block([]))) && Clean(body)
    ensures Clean(List([Sym("loop"), SigBound(lo), SigBound(hi), Sym(tile), Sym(x), body]))
  {
    CleanBound(lo);
    CleanBound(hi);
  }

  lemma CleanSeq(l: Sexp, r: Sexp)
    requires Clean(l) && Clean(r)
    ensures Clean(List([Sym("seq"), l, r]))
  {
  }

  lemma {:induction false} CleanStmts(ss: seq<Stmt>, st: Slots)
    requires forall c :: c in ss ==> NamedStmt(c)
    ensures forall x :: x in SigStmts(ss, st) ==> Clean(x)
    decreases ss, 0
  {
    if ss != [] {
      CleanStmt(ss[0], st);
      CleanStmts(ss[1..], SlotsAfter(ss[0], st));
    }
  }

  // ---------------------------------------------------------------------------------------------
  // Equal signature trees mean equal skeletons

  lemma AtomInjective(a: Atom, b: Atom)
    requires SigAtom(a) == SigAtom(b)
    ensures a == b
  {
    var x, y := SigAtom(a), SigAtom(b);
    if x.List? {
      assert x.items[0] == y.items[0] && x.items[1] == y.items[1];
      assert "tile" != "elem" && "tile" != "shifted_tile" && "tile" != "const_tile";
      assert "elem" != "shifted_tile" && "elem" != "const_tile" && "shifted_tile" != "const_tile";
      match a
      case TileOffset(_, k) =>
        assert x.items[2] == y.items[2];
        IntTextInjective(k, b.offset);
      case ConstTile(s, n) =>
        assert x.items[2] == y.items[2];
        IntTextInjective(s, b.start);
        IntTextInjective(n, b.interval);
      case _ =>
    }
  }

  lemma IndexInjective(ix: Index, jx: Index)
    requires SigIndex(ix) == SigIndex(jx)
    ensures ix == jx
  {
    assert |SigIndex(ix).items| == |ix| + 1 && |SigIndex(jx).items| == |jx| + 1;
    forall k | 0 <= k < |ix| ensures ix[k] == jx[k] {
      assert SigIndex(ix).items[k + 1] == SigAtom(ix[k]);
      assert SigIndex(jx).items[k + 1] == SigAtom(jx[k]);
      AtomInjective(ix[k], jx[k]);
    }
  }

  lemma BoundInjective(a: Bound, b: Bound)
    requires NamedBound(a) && NamedBound(b) && SigBound(a) == SigBound(b)
    ensures a == b
  {
    if a.Num? { IntTextClean(a.n); }
    if b.Num? { IntTextClean(b.n); }
    if a.Num? && b.Num? { IntTextInjective(a.n, b.n); }
  }


  lemma HeadInjective(op1: Oper, op2: Oper)
    requires NamedOp(op1) && NamedOp(op2) && Head(op1)[0] == Head(op2)[0]
    ensures Kind(op1) == Kind(op2)
  {
    BuiltinNamesDistinct();
    HeadWord(op1);
    HeadWord(op2);
  }

  lemma TailInjective(op1: Oper, op2: Oper)
    requires Kind(op1) == Kind(op2)
    ensures |Tail(op1)| == |Tail(op2)|
    ensures Head(op1) == Head(op2) && Tail(op1) == Tail(op2) ==> op1 == op2
  {
    if Head(op1) == Head(op2) && Tail(op1) == Tail(op2) {
      if op1.Permute3? {
        assert Tail(op1)[0] == Tail(op2)[0] && Tail(op1)[1] == Tail(op2)[1] && Tail(op1)[2] == Tail(op2)[2];
        IntTextInjective(op1.d0, op2.d0);
        IntTextInjective(op1.d1, op2.d1);
        IntTextInjective(op1.d2, op2.d2);
      } else if 12 <= Kind(op1) < 20 {
        assert Tail(op1)[0] == Tail(op2)[0];
        IntTextInjective(op1.axis, op2.axis);
      } else {
        assert Head(op1)[0] == Head(op2)[0];
        assert op1.Cast? ==> Head(op1)[1] == Head(op2)[1];
      }
    }
  }

  /** An operator list determines the operator and its operands. */
  lemma OpInjective(op1: Oper, ss1: seq<Sexp>, op2: Oper, ss2: seq<Sexp>)
    requires NamedOp(op1) && NamedOp(op2)
    requires Head(op1) + ss1 + Tail(op1) == Head(op2) + ss2 + Tail(op2)
    ensures op1 == op2 && ss1 == ss2
  {
    var whole1, whole2 := Head(op1) + ss1 + Tail(op1), Head(op2) + ss2 + Tail(op2);
    HeadWord(op1);
    HeadWord(op2);
    assert whole1[0] == Head(op1)[0] && whole2[0] == Head(op2)[0];
    HeadInjective(op1, op2);
    TailInjective(op1, op2);
    var h, t := |Head(op1)|, |Tail(op1)|;
    var n := |whole1|;
    assert whole1[..h] == Head(op1) && whole2[..h] == Head(op2);
    assert whole1[h..n - t] == ss1 && whole2[h..n - t] == ss2;
    assert whole1[n - t..] == Tail(op1) && whole2[n - t..] == Tail(op2);
  }

  // ---------------------------------------------------------------------------------------------
  // Renaming by slot

  /** `_group_to_lisp`'s `rewrite`: every tensor name is replaced by the name of its slot. */
  function RewriteExpr(e: Expr, rd: seq<Name>, names: nat -> Name): Expr
    decreases e, 1
  {
    match e
    case Load(t, ix) => Load(names(SlotOf(rd, t)), ix)
    case Const(_) => e
    case Arange(_) => e
    case Op(op, args) => Op(op, RewriteExprs(args, rd, names))
  }

  function RewriteExprs(args: seq<Expr>, rd: seq<Name>, names: nat -> Name): (r: seq<Expr>)
    ensures |r| == |args|
    decreases args, 0
  {
    if args == [] then []
    else [RewriteExpr(args[0], rd, names)] + RewriteExprs(args[1..], ReadsAfter(args[0], rd), names)
  }

  function Rewrite(s: Stmt, st: Slots, rdNames: nat -> Name, wrNames: nat -> Name): Stmt
    decreases s, 1
  {
    match s
    case Store(t, v, ix) => Store(wrNames(SlotOf(st.wr, t)), RewriteExpr(v, st.rd, rdNames), ix)
    case Loop(lo, hi, tile, x, b) => Loop(lo, hi, tile, x, Rewrite(b, st, rdNames, wrNames))
    case Seq(l, r) => Seq(Rewrite(l, st, rdNames, wrNames), Rewrite(r, SlotsAfter(l, st), rdNames, wrNames))
    case Block(ss) => Block(RewriteAll(ss, st, rdNames, wrNames))
  }

  function RewriteAll(ss: seq<Stmt>, st: Slots, rdNames: nat -> Name, wrNames: nat -> Name): (r: seq<Stmt>)
    ensures |r| == |ss|
    decreases ss, 0
  {
    if ss == [] then []
    else [Rewrite(ss[0], st, rdNames, wrNames)] + RewriteAll(ss[1..], SlotsAfter(ss[0], st), rdNames, wrNames)
  }

  /** The k-th member of a statement with joined names. */
  function LaneExpr(e: Expr, k: nat): Expr
    decreases e, 1
  {
    match e
    case Load(t, ix) => Load(Component(t, k), ix)
    case Const(_) => e
    case Arange(_) => e
    case Op(op, args) => Op(op, LaneExprs(args, k))
  }

  function LaneExprs(args: seq<Expr>, k: nat): (r: seq<Expr>)
    ensures |r| == |args|
    decreases args, 0
  {
    if args == [] then [] else [LaneExpr(args[0], k)] + LaneExprs(args[1..], k)
  }

  function Lane(s: Stmt, k: nat): Stmt
    decreases s, 1
  {
    match s
    case Store(t, v, ix) => Store(Component(t, k), LaneExpr(v, k), ix)
    case Loop(lo, hi, tile, x, b) => Loop(lo, hi, tile, x, Lane(b, k))
    case Seq(l, r) => Seq(Lane(l, k), Lane(r, k))
    case Block(ss) => Block(LaneAll(ss, k))
  }

  function LaneAll(ss: seq<Stmt>, k: nat): (r: seq<Stmt>)
    ensures |r| == |ss|
    decreases ss, 0
  {
    if ss == [] then [] else [Lane(ss[0], k)] + LaneAll(ss[1..], k)
  }

  lemma {:induction false} ReadsGrow(e: Expr, rd: seq<Name>)
    ensures rd <= ReadsAfter(e, rd)
    decreases e, 1
  {
    if e.Op? { ReadsGrowAll(e.args, rd); }
  }

  lemma {:induction false} ReadsGrowAll(args: seq<Expr>, rd: seq<Name>)
    ensures rd <= ReadsAfterAll(args, rd)
    decreases args, 0
  {
    if args != [] {
      ReadsGrow(args[0], rd);
      ReadsGrowAll(args[1..], ReadsAfter(args[0], rd));
    }
  }

  lemma {:induction false} SlotsGrow(s: Stmt, st: Slots)
    ensures st.rd <= SlotsAfter(s, st).rd && st.wr <= SlotsAfter(s, st).wr
    decreases s, 1
  {
    match s
    case Store(t, v, _) => ReadsGrow(v, st.rd);
    case Loop(_, _, _, _, b) => SlotsGrow(b, st);
    case Seq(l, r) => SlotsGrow(l, st); SlotsGrow(r, SlotsAfter(l, st));
    case Block(ss) => SlotsGrowAll(ss, st);
  }

  lemma {:induction false} SlotsGrowAll(ss: seq<Stmt>, st: Slots)
    ensures st.rd <= SlotsAfterAll(ss, st).rd && st.wr <= SlotsAfterAll(ss, st).wr
    decreases ss, 0
  {
    if ss != [] {
      SlotsGrow(ss[0], st);
      SlotsGrowAll(ss[1..], SlotsAfter(ss[0], st));
    }
  }

  lemma SlotTextInjective(c: char, m: nat, n: nat)
    requires [c] + NatText(m) == [c] + NatText(n)
    ensures m == n
  {
    assert ([c] + NatText(m))[1..] == NatText(m) && ([c] + NatText(n))[1..] == NatText(n);
    NatTextInjective(m, n);
  }

  /** One name met on each side, under equal slot numbers. */
  lemma SlotStep(xs: seq<Name>, x: Name, ys: seq<Name>, y: Name)
    requires |xs| == |ys| && SlotOf(xs, x) == SlotOf(ys, y)
    ensures |AddName(xs, x)| == |AddName(ys, y)|
    ensures SlotOf(ys, y) < |AddName(ys, y)| && AddName(ys, y)[SlotOf(ys, y)] == y
  {
  }

  /** Joined names whose k-th components are the names `final`. */
  ghost predicate Names(joined: nat -> Name, k: nat, final: seq<Name>) {
    forall slot :: 0 <= slot < |final| ==> Component(joined(slot), k) == final[slot]
  }

  /** If two expressions have equal signatures, the k-th lane of the rewritten first one is the
      second one. */
  lemma {:induction false} ExprLane(e: Expr, rd1: seq<Name>, f: Expr, rd2: seq<Name>, joined: nat -> Name, k: nat,
      final: seq<Name>)
    requires NamedExpr(e) && NamedExpr(f) && |rd1| == |rd2| && SigExpr(e, rd1) == SigExpr(f, rd2)
    requires ReadsAfter(f, rd2) <= final && Names(joined, k, final)
    ensures |ReadsAfter(e, rd1)| == |ReadsAfter(f, rd2)|
    ensures LaneExpr(RewriteExpr(e, rd1, joined), k) == f
    decreases e, 1
  {
    var x, y := SigExpr(e, rd1), SigExpr(f, rd2);
    if e.Op? {
      OpAgainst(e, rd1, f, rd2);
      OpInjective(e.op, SigExprs(e.args, rd1), f.op, SigExprs(f.args, rd2));
      ExprsLane(e.args, rd1, f.args, rd2, joined, k, final);
    } else if f.Op? {
      OpAgainst(f, rd2, e, rd1);
    } else if e.Load? {
      LoadOrArange(e, rd1, f, rd2);
      assert x.items[1] == y.items[1] && x.items[2] == y.items[2];
      SlotTextInjective('R', SlotOf(rd1, e.tensor), SlotOf(rd2, f.tensor));
      SlotStep(rd1, e.tensor, rd2, f.tensor);
      IndexInjective(e.index, f.index);
    } else if e.Arange? {
      LoadOrArange(e, rd1, f, rd2);
      assert x.items[1] == y.items[1];
    }
  }

  lemma LoadOrArange(e: Expr, rd1: seq<Name>, f: Expr, rd2: seq<Name>)
    requires (e.Load? || e.Arange?) && !f.Op? && SigExpr(e, rd1) == SigExpr(f, rd2)
    ensures e.Load? <==> f.Load?
    ensures e.Arange? <==> f.Arange?
  {
    assert SigExpr(e, rd1).items[0] == SigExpr(f, rd2).items[0];
    assert "load"[0] != "arange"[0];
  }

  /** An operator is never spelled like a load, an arange or a constant. */
  lemma HeadNotReserved(op: Oper)
    requires NamedOp(op)
    ensures Head(op)[0].text != "load" && Head(op)[0].text != "arange"
  {
    BuiltinNamesDistinct();
    HeadWord(op);
    assert BUILTIN_NAMES[20] == "load" && BUILTIN_NAMES[21] == "arange";
  }

  lemma OpAgainst(e: Expr, rd1: seq<Name>, f: Expr, rd2: seq<Name>)
    requires e.Op? && NamedExpr(e) && NamedExpr(f) && SigExpr(e, rd1) == SigExpr(f, rd2)
    ensures f.Op?
  {
    HeadNotReserved(e.op);
    HeadWord(e.op);
    assert SigExpr(e, rd1).items[0] == Head(e.op)[0];
  }

  lemma {:induction false} ExprsLane(es: seq<Expr>, rd1: seq<Name>, fs: seq<Expr>, rd2: seq<Name>, joined: nat -> Name,
      k: nat, final: seq<Name>)
    requires (forall a :: a in es ==> NamedExpr(a)) && (forall a :: a in fs ==> NamedExpr(a))
    requires |rd1| == |rd2| && SigExprs(es, rd1) == SigExprs(fs, rd2)
    requires ReadsAfterAll(fs, rd2) <= final && Names(joined, k, final)
    ensures |ReadsAfterAll(es, rd1)| == |ReadsAfterAll(fs, rd2)|
    ensures LaneExprs(RewriteExprs(es, rd1, joined), k) == fs
    decreases es, 0
  {
    assert |es| == |SigExprs(es, rd1)| == |fs|;
    if es != [] {
      var rd1', rd2' := ReadsAfter(es[0], rd1), ReadsAfter(fs[0], rd2);
      assert SigExprs(es, rd1)[0] == SigExprs(fs, rd2)[0];
      assert SigExprs(es, rd1)[1..] == SigExprs(es[1..], rd1') && SigExprs(fs, rd2)[1..] == SigExprs(fs[1..], rd2');
      ReadsGrowAll(fs[1..], rd2');
      ExprLane(es[0], rd1, fs[0], rd2, joined, k, final);
      ExprsLane(es[1..], rd1', fs[1..], rd2', joined, k, final);
      var rewritten := RewriteExprs(es, rd1, joined);
      assert rewritten[1..] == RewriteExprs(es[1..], rd1', joined);
      assert fs == [fs[0]] + fs[1..];
    }
  }

  lemma {:induction false} StmtLane(s: Stmt, st1: Slots, t: Stmt, st2: Slots, rdNames: nat -> Name,
      wrNames: nat -> Name, k: nat, final: Slots)
    requires NamedStmt(s) && NamedStmt(t) && SigStmt(s, st1) == SigStmt(t, st2)
    requires |st1.rd| == |st2.rd| && |st1.wr| == |st2.wr|
    requires SlotsAfter(t, st2).rd <= final.rd && SlotsAfter(t, st2).wr <= final.wr
    requires Names(rdNames, k, final.rd) && Names(wrNames, k, final.wr)
    ensures |SlotsAfter(s, st1).rd| == |SlotsAfter(t, st2).rd|
    ensures |SlotsAfter(s, st1).wr| == |SlotsAfter(t, st2).wr|
    ensures Lane(Rewrite(s, st1, rdNames, wrNames), k) == t
    decreases s, 1
  {
    var x, y := SigStmt(s, st1), SigStmt(t, st2);
    StmtKind(s, st1, t, st2);
    match s
    case Store(n, v, ix) =>
      assert x.items[1] == y.items[1] && x.items[2] == y.items[2] && x.items[3] == y.items[3];
      SlotTextInjective('W', SlotOf(st1.wr, n), SlotOf(st2.wr, t.tensor));
      SlotStep(st1.wr, n, st2.wr, t.tensor);
      IndexInjective(ix, t.index);
      ExprLane(v, st1.rd, t.value, st2.rd, rdNames, k, final.rd);
    case Loop(lo, hi, tile, v, b) =>
      assert x.items[1] == y.items[1] && x.items[2] == y.items[2] && x.items[3] == y.items[3] &&
        x.items[4] == y.items[4] && x.items[5] == y.items[5];
      BoundInjective(lo, t.start);
      BoundInjective(hi, t.end);
      StmtLane(b, st1, t.body, st2, rdNames, wrNames, k, final);
    case Seq(l, r) =>
      assert x.items[1] == y.items[1] && x.items[2] == y.items[2];
      SlotsGrow(t.right, SlotsAfter(t.left, st2));
      StmtLane(l, st1, t.left, st2, rdNames, wrNames, k, final);
      StmtLane(r, SlotsAfter(l, st1), t.right, SlotsAfter(t.left, st2), rdNames, wrNames, k, final);
    case Block(ss) =>
      assert x.items[1..] == SigStmts(ss, st1) && y.items[1..] == SigStmts(t.stmts, st2);
      StmtsLane(ss, st1, t.stmts, st2, rdNames, wrNames, k, final);
  }

  lemma StmtKind(s: Stmt, st1: Slots, t: Stmt, st2: Slots)
    requires SigStmt(s, st1) == SigStmt(t, st2)
    ensures (s.Store? <==> t.Store?) && (s.Loop? <==> t.Loop?) && (s.Seq? <==> t.Seq?) && (s.Block? <==> t.Block?)
  {
    assert SigStmt(s, st1).items[0] == SigStmt(t, st2).items[0];
    assert "store"[1] == 't' && "seq"[1] == 'e' && "loop"[0] == 'l' && "block"[0] == 'b';
  }

  lemma {:induction false} StmtsLane(ss: seq<Stmt>, st1: Slots, ts: seq<Stmt>, st2: Slots, rdNames: nat -> Name,
      wrNames: nat -> Name, k: nat, final: Slots)
    requires (forall c :: c in ss ==> NamedStmt(c)) && (forall c :: c in ts ==> NamedStmt(c))
    requires SigStmts(ss, st1) == SigStmts(ts, st2)
    requires |st1.rd| == |st2.rd| && |st1.wr| == |st2.wr|
    requires SlotsAfterAll(ts, st2).rd <= final.rd && SlotsAfterAll(ts, st2).wr <= final.wr
    requires Names(rdNames, k, final.rd) && Names(wrNames, k, final.wr)
    ensures |SlotsAfterAll(ss, st1).rd| == |SlotsAfterAll(ts, st2).rd|
    ensures |SlotsAfterAll(ss, st1).wr| == |SlotsAfterAll(ts, st2).wr|
    ensures LaneAll(RewriteAll(ss, st1, rdNames, wrNames), k) == ts
    decreases ss, 0
  {
    assert |ss| == |SigStmts(ss, st1)| == |ts|;
    if ss != [] {
      var st1', st2' := SlotsAfter(ss[0], st1), SlotsAfter(ts[0], st2);
      assert SigStmts(ss, st1)[0] == SigStmts(ts, st2)[0];
      assert SigStmts(ss, st1)[1..] == SigStmts(ss[1..], st1') && SigStmts(ts, st2)[1..] == SigStmts(ts[1..], st2');
      SlotsGrowAll(ts[1..], st2');
      StmtLane(ss[0], st1, ts[0], st2, rdNames, wrNames, k, final);
      StmtsLane(ss[1..], st1', ts[1..], st2', rdNames, wrNames, k, final);
      var rewritten := RewriteAll(ss, st1, rdNames, wrNames);
      assert rewritten[1..] == RewriteAll(ss[1..], st1', rdNames, wrNames);
      assert ts == [ts[0]] + ts[1..];
    }
  }

  /** Two roots with the same signature text differ only in the names of their slots: the same
      number of slots, and renaming the first root's slots to joined names loses nothing. */
  lemma SignatureLossless(s: Stmt, t: Stmt, rdNames: nat -> Name, wrNames: nat -> Name, k: nat)
    requires NamedStmt(s) && NamedStmt(t) && Signature(s) == Signature(t)
    ensures var S, T := SlotsAfter(s, Slots([], [])), SlotsAfter(t, Slots([], []));
      && |S.rd| == |T.rd| && |S.wr| == |T.wr|
      && (Names(rdNames, k, T.rd) && Names(wrNames, k, T.wr) ==>
            Lane(Rewrite(s, Slots([], []), rdNames, wrNames), k) == t)
  {
    var none := Slots([], []);
    var S, T := SlotsAfter(s, none), SlotsAfter(t, none);
    CleanStmt(s, none);
    CleanStmt(t, none);
    SigTextInjective(SigStmt(s, none), SigStmt(t, none));
    if Names(rdNames, k, T.rd) && Names(wrNames, k, T.wr) {
      StmtLane(s, none, t, none, rdNames, wrNames, k, T);
    }
    SlotsNamed(t, none);
    var own := (names: seq<Name>) => (slot: nat) => if slot < |names| then names[slot] else "";
    forall slot | 0 <= slot < |T.rd| ensures Component(own(T.rd)(slot), 0) == T.rd[slot] { SplitOne(T.rd[slot]); }
    forall slot | 0 <= slot < |T.wr| ensures Component(own(T.wr)(slot), 0) == T.wr[slot] { SplitOne(T.wr[slot]); }
    StmtLane(s, none, t, none, own(T.rd), own(T.wr), 0, T);
  }

  predicate SingleNames(st: Slots) {
    (forall n :: n in st.rd ==> OneName(n)) && (forall n :: n in st.wr ==> OneName(n))
  }

  lemma {:induction false} ReadsNamed(e: Expr, rd: seq<Name>)
    requires NamedExpr(e) && forall n :: n in rd ==> OneName(n)
    ensures forall n :: n in ReadsAfter(e, rd) ==> OneName(n)
    decreases e, 1
  {
    if e.Op? { ReadsNamedAll(e.args, rd); }
  }

  lemma {:induction false} ReadsNamedAll(args: seq<Expr>, rd: seq<Name>)
    requires (forall a :: a in args ==> NamedExpr(a)) && forall n :: n in rd ==> OneName(n)
    ensures forall n :: n in ReadsAfterAll(args, rd) ==> OneName(n)
    decreases args, 0
  {
    if args != [] {
      ReadsNamed(args[0], rd);
      ReadsNamedAll(args[1..], ReadsAfter(args[0], rd));
    }
  }

  lemma {:induction false} SlotsNamed(s: Stmt, st: Slots)
    requires NamedStmt(s) && SingleNames(st)
    ensures SingleNames(SlotsAfter(s, st))
    decreases s, 1
  {
    match s
    case Store(t, v, _) => ReadsNamed(v, st.rd);
    case Loop(_, _, _, _, b) => SlotsNamed(b, st);
    case Seq(l, r) => SlotsNamed(l, st); SlotsNamed(r, SlotsAfter(l, st));
    case Block(ss) => SlotsNamedAll(ss, st);
  }

  lemma {:induction false} SlotsNamedAll(ss: seq<Stmt>, st: Slots)
    requires (forall c :: c in ss ==> NamedStmt(c)) && SingleNames(st)
    ensures SingleNames(SlotsAfterAll(ss, st))
    decreases ss, 0
  {
    if ss != [] {
      SlotsNamed(ss[0], st);
      SlotsNamedAll(ss[1..], SlotsAfter(ss[0], st));
    }
  }
}
