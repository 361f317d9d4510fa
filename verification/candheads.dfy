/** Which operators the signatures of candidates keep. */
module CandidateHeads {
  import opened Ast
  import opened Text
  import opened IrText
  import opened IrMeaning
  import Canonical
  import Sexps

  // Every head the printer writes for a statement the back end understands is a keyword of the candidate
  // signatures, unless it is erf, abs or <= (HeadsKeptIff).  Those are renamed like tensors, so candidates
  // that differ in them alone share a signature (RenamedOperatorInput).

  /** The heads of lists in a tree, and the words that stand for a whole coordinate. */
  function Heads(t: Tree): set<string> {
    match t
    case Word(_) => {}
    case Names(h, _) => {h}
    case Form(op, items) => {op} + set x, h | x in items && h in Heads(x) :: h
  }

  function ForestHeads(ts: seq<Tree>): set<string> { set x, h | x in ts && h in Heads(x) :: h }

  /** Operators of the back end that are no keywords of the signatures. */
  predicate Unkept(op: Oper) { Generic(op) && OpName(op) in {"erf", "abs", "<="} }

  function OpName(op: Oper): string
    requires Generic(op)
  {
    if op.GenericBinary? then op.op else op.func
  }

  predicate AllKept(e: Expr) { e.Op? ==> !Unkept(e.op) && forall a :: a in e.args ==> AllKept(a) }

  predicate StmtKept(s: Stmt) {
    match s
    case Store(_, v, _) => AllKept(v)
    case Loop(_, _, _, _, b) => StmtKept(b)
    case Seq(l, r) => StmtKept(l) && StmtKept(r)
    case Block(ss) => forall c :: c in ss ==> StmtKept(c)
  }

  lemma BuiltInKept(op: Oper, n: nat)
    requires !Generic(op)
    ensures HeadOf(op, n) in Canonical.KEYWORDS
  {
  }

  lemma NamedKept(name: string)
    requires name in TWO_OPERANDS + ONE_OPERAND
    ensures name in Canonical.KEYWORDS <==> name !in {"erf", "abs", "<="}
  {
    if name == "erf" {
      NoKeyword(name);
    } else if name == "abs" {
      NoKeyword(name);
    } else if name == "<=" {
      NoKeyword(name);
    }
  }

  lemma NoKeyword(name: string)
    requires name == "erf" || name == "abs" || name == "<="
    ensures name !in Canonical.KEYWORDS
  {
    forall k | k in Canonical.KEYWORDS ensures k != name {
      assert |k| == |name| ==>
        k == "seq" || k == "exp" || k == "sqr" || k == "max" || k == "min" || k == "let" || k == "if";
    }
  }

  lemma HeadKeptIff(op: Oper, args: seq<Expr>)
    requires GoodOp(op, args)
    ensures HeadOf(op, |args|) in Canonical.KEYWORDS <==> !Unkept(op)
  {
    if !Generic(op) {
      BuiltInKept(op, |args|);
    } else if op == GenericCall("transpose") {
      NotByOperands();
      if |args| >= 4 { PermutedHeads(); }
      NotUnkept("transpose");
    } else {
      NamedKept(OpName(op));
    }
  }

  lemma NotUnkept(name: string)
    requires |name| == 9
    ensures name !in {"erf", "abs", "<="}
  {
  }

  // ---------------------------------------------------------------------------------------------
  // The heads of what is printed

  ghost predicate Kept(t: Tree) { Heads(t) <= Canonical.KEYWORDS }

  ghost predicate ForestKept(ts: seq<Tree>) { forall k :: 0 <= k < |ts| ==> Kept(ts[k]) }

  lemma FormKept(op: string, items: seq<Tree>)
    ensures Kept(Form(op, items)) <==> op in Canonical.KEYWORDS && ForestKept(items)
  {
    var t := Form(op, items);
    assert op in Heads(t);
    if Kept(t) {
      forall k | 0 <= k < |items| ensures Kept(items[k]) {
        forall h | h in Heads(items[k]) ensures h in Canonical.KEYWORDS { assert items[k] in items && h in Heads(t); }
      }
    }
    if op in Canonical.KEYWORDS && ForestKept(items) {
      forall h | h in Heads(t) ensures h in Canonical.KEYWORDS {
        if h != op {
          var x :| x in items && h in Heads(x);
          var k :| 0 <= k < |items| && items[k] == x;
          assert Kept(items[k]);
        }
      }
    }
  }

  lemma FixedKept()
    ensures {"load", "store", "seq", "index", "tile", "elem", "const_tile", "tensor", "input",
      "output"} <= Canonical.KEYWORDS
  {
  }

  lemma AtomKept(a: Atom)
    requires GoodAtom(a)
    ensures Kept(AtomTree(a))
  {
    FixedKept();
    match a
    case Tile(x) => FormKept("tile", [Word(CleanTile(x))]);
    case Elem(x) => FormKept("elem", [Word(CleanTile(x))]);
    case ConstTile(at, len) => FormKept("const_tile", [Word(IntText(at)), Word(IntText(len))]);
    case FullTile =>
  }

  lemma IndexKept(ix: Index)
    requires GoodIndex(ix)
    ensures Kept(IndexTree(ix))
  {
    FixedKept();
    forall d | 0 <= d < |ix| ensures Kept(AtomTrees(ix)[d]) { AtomKept(ix[d]); }
    FormKept("index", AtomTrees(ix));
    assert IndexTree(ix) == Form("index", AtomTrees(ix));
  }

  lemma TensorKept(role: Name -> string, t: Name)
    requires Roles(role)
    ensures Kept(TensorTree(role, t))
  {
    FixedKept();
    assert IsTensorHead(role(t));
  }

  lemma OperandsKept(before: seq<Tree>, items: seq<Tree>, after: seq<Tree>)
    requires (forall k :: 0 <= k < |before| ==> before[k].Word?) && forall k :: 0 <= k < |after| ==> after[k].Word?
    ensures ForestKept(before + items + after) <==> ForestKept(items)
  {
    var all := before + items + after;
    assert forall k :: 0 <= k < |items| ==> all[|before| + k] == items[k];
    assert forall k :: 0 <= k < |all| ==>
      all[k].Word? || (|before| <= k < |before| + |items| && all[k] == items[k - |before|]);
  }

  lemma {:induction false} ExprHeads(role: Name -> string, e: Expr)
    requires Roles(role) && GoodExpr(e)
    ensures Kept(ExprTree(role, e)) <==> AllKept(e)
    decreases e, 1
  {
    match e
    case Load(t, ix) =>
      FixedKept();
      TensorKept(role, t);
      IndexKept(ix);
      FormKept("load", [TensorTree(role, t), IndexTree(ix)]);
    case Const(_) =>
    case Op(op, args) =>
      HeadKeptIff(op, args);
      ExprsHeads(role, args);
      OperandsKept(Before(op), ExprTrees(role, args), After(op));
      FormKept(HeadOf(op, |args|), Before(op) + ExprTrees(role, args) + After(op));
  }

  lemma OneKept(t: Tree)
    ensures ForestKept([t]) <==> Kept(t)
  {
    assert [t][0] == t;
  }

  lemma {:induction false} ExprsHeads(role: Name -> string, args: seq<Expr>)
    requires Roles(role) && forall k :: 0 <= k < |args| ==> GoodExpr(args[k])
    ensures ForestKept(ExprTrees(role, args)) <==> forall a :: a in args ==> AllKept(a)
    decreases args, 0
  {
    if args != [] {
      ExprHeads(role, args[0]);
      ExprsHeads(role, args[1..]);
      OneKept(ExprTree(role, args[0]));
      ForestAppendKept([ExprTree(role, args[0])], ExprTrees(role, args[1..]));
      assert forall a :: a in args <==> a == args[0] || a in args[1..];
    }
  }

  lemma ForestAppendKept(a: seq<Tree>, b: seq<Tree>)
    ensures ForestKept(a + b) <==> ForestKept(a) && ForestKept(b)
  {
    assert forall k :: 0 <= k < |a| ==> (a + b)[k] == a[k];
    assert forall k :: 0 <= k < |b| ==> (a + b)[|a| + k] == b[k];
  }

  lemma StoreHeads(role: Name -> string, t: Name, v: Expr, ix: Index)
    requires Roles(role) && GoodExpr(v) && GoodIndex(ix)
    ensures ForestKept(StmtTrees(role, Store(t, v, ix))) <==> AllKept(v)
  {
    var items := [TensorTree(role, t), ExprTree(role, v), IndexTree(ix)];
    FixedKept();
    TensorKept(role, t);
    ExprHeads(role, v);
    IndexKept(ix);
    FormKept("store", items);
    OneKept(Form("store", items));
  }

  lemma SeqHeads(role: Name -> string, l: Stmt, r: Stmt)
    ensures ForestKept(StmtTrees(role, Seq(l, r))) <==> ForestKept(StmtTrees(role, l)) && ForestKept(StmtTrees(role, r))
  {
    FixedKept();
    ForestAppendKept(StmtTrees(role, l), StmtTrees(role, r));
    FormKept("seq", StmtTrees(role, l) + StmtTrees(role, r));
    OneKept(Form("seq", StmtTrees(role, l) + StmtTrees(role, r)));
  }

  /** Every head of a printed statement is kept exactly when it has no erf, no abs and no <=. */
  lemma {:induction false} HeadsKeptIff(role: Name -> string, s: Stmt)
    requires Roles(role) && GoodStmt(s)
    ensures ForestKept(StmtTrees(role, s)) <==> StmtKept(s)
    decreases s, 1
  {
    match s
    case Store(t, v, ix) => StoreHeads(role, t, v, ix);
    case Seq(l, r) =>
      HeadsKeptIff(role, l);
      HeadsKeptIff(role, r);
      SeqHeads(role, l, r);
    case Block(ss) => AllHeadsKeptIff(role, ss);
  }

  lemma {:induction false} AllHeadsKeptIff(role: Name -> string, ss: seq<Stmt>)
    requires Roles(role) && forall k :: 0 <= k < |ss| ==> GoodStmt(ss[k])
    ensures ForestKept(AllTrees(role, ss)) <==> forall c :: c in ss ==> StmtKept(c)
    decreases ss, 0
  {
    if ss != [] {
      HeadsKeptIff(role, ss[0]);
      AllHeadsKeptIff(role, ss[1..]);
      ForestAppendKept(StmtTrees(role, ss[0]), AllTrees(role, ss[1..]));
      assert forall c :: c in ss <==> c == ss[0] || c in ss[1..];
    }
  }

  // ---------------------------------------------------------------------------------------------
  // Candidates that differ in an operator alone

  /** A function of one named operand, as it is printed. */
  function CallText(f: string): string { "(" + f + " x)" }

  lemma CallTokens(f: string)
    requires Sexps.CleanWord(f)
    ensures Sexps.Tokens(CallText(f)) == ["(", f, "x", ")"]
  {
    var inside := f + " x";
    Sexps.CleanWordTokens(f);
    Sexps.CleanWordTokens("x");
    Sexps.TokensAtSpace(f, ' ', "x");
    assert inside == f + [' '] + "x";
    Sexps.TokensAtParen("", '(', inside + ")");
    Sexps.TokensAtParen(inside, ')', "");
    assert CallText(f) == "" + ['('] + (inside + ")") && inside + ")" == inside + [')'] + "";
    assert Sexps.Tokens("") == [];
  }

  lemma PrintedCall(role: Name -> string, f: string)
    requires f == "erf" || f == "abs"
    ensures ExprText(role, Op(GenericCall(f), [Const("x")]), 0) == CallText(f)
  {
    var e := Op(GenericCall(f), [Const("x")]);
    assert ExprTrees(role, [Const("x")]) == [Word("x")];
    assert [] + [Word("x")] + [] == [Word("x")];
    assert f != "transpose" by { assert |f| == 3; }
    assert ExprTree(role, e) == Form(f, [Word("x")]);
    assert InlineAll([Word("x")]) == "x";
    assert Inline(Form(f, [Word("x")])) == "(" + f + " " + "x" + ")";
  }

  /** The error function and the absolute value of one operand get one signature, whatever the number
      syntax. */
  lemma RenamedOperatorInput(isNumber: string -> bool, role: Name -> string)
    requires Canonical.NoAliasIsNumber(isNumber) && !isNumber("erf") && !isNumber("abs") && !isNumber("x")
    ensures var fixed := Canonical.Keeps(isNumber);
      Canonical.CanonText(fixed, ExprText(role, Op(GenericCall("erf"), [Const("x")]), 0)) ==
        Canonical.CanonText(fixed, ExprText(role, Op(GenericCall("abs"), [Const("x")]), 0))
  {
    var fixed := Canonical.Keeps(isNumber);
    PrintedCall(role, "erf");
    PrintedCall(role, "abs");
    CallTokens("erf");
    CallTokens("abs");
    NoKeyword("erf");
    NoKeyword("abs");
    FreeX();
    RenamedCall(fixed, ["(", "erf", "x", ")"], ["(", "abs", "x", ")"]);
    Canonical.CandidateSignatures(isNumber, CallText("erf"), CallText("abs"));
  }

  lemma FreeX()
    ensures "x" !in Canonical.KEYWORDS && "x" != "(" && "x" != ")"
  {
    forall k | k in Canonical.KEYWORDS ensures k != "x" { assert |k| == 1 ==> k[0] != 'x'; }
  }

  lemma RenamedCall(fixed: string -> bool, a: seq<string>, b: seq<string>)
    requires |a| == |b| == 4 && a[0] == b[0] && a[2] == b[2] && a[3] == b[3] && a[1] != a[2] && b[1] != b[2]
    requires fixed(a[0]) && fixed(a[3]) && !fixed(a[1]) && !fixed(b[1]) && !fixed(a[2])
    ensures Canonical.SameUpToNames(fixed, a, b)
  {
    var rho := map[a[1] := b[1], a[2] := b[2]];
    assert Canonical.Renames(fixed, rho, a);
    assert Canonical.RenamedAll(fixed, rho, a) == b;
  }
}
