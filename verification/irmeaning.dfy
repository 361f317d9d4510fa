/** What the back end makes of printed IR: the nodes of the parser get a meaning, and it is that of what was printed. */
module IrMeaning {
  import opened Ast
  import opened Text
  import opened Machines
  import opened IrText
  import Sexps

  // A node means an expression or a statement by its kind: ADD adds, RSUM sums along the axis that stands
  // behind its operand, LOAD reads the tensor whose names it lists, SEQ runs its children in order.  Printing
  // an expression or a statement, at any level, and parsing the text with the parser's own table gives a node
  // that means the same on every machine (PrintedExpressionMeans, PrintedStatementMeans).

  // ---------------------------------------------------------------------------------------------
  // The meaning of a node

  function WordOf(n: Node): Option<string> {
    match n
    case NumNode(v) => Some(IntText(v))
    case VarNode(w) => Some(w)
    case FullTileNode => Some("fulltile")
    case DummyNode => Some("dummy")
    case OpNode(_, _) => None
  }

  function AtomOf(n: Node): Option<Atom> {
    match n
    case FullTileNode => Some(FullTile)
    case OpNode(TILE, kids) => if |kids| == 1 && WordOf(kids[0]).Some? then Some(Tile(WordOf(kids[0]).value)) else None
    case OpNode(ELEM, kids) => if |kids| == 1 && WordOf(kids[0]).Some? then Some(Elem(WordOf(kids[0]).value)) else None
    case OpNode(CONST_TILE, kids) =>
      if |kids| == 2 && kids[0].NumNode? && kids[1].NumNode? then Some(ConstTile(kids[0].value, kids[1].value))
        else None
    case _ => None
  }

  function AtomsOf(ns: seq<Node>): Option<Index> {
    if ns == [] then Some([])
    else
      match (AtomOf(ns[0]), AtomsOf(ns[1..]))
      case (Some(a), Some(rest)) => Some([a] + rest)
      case (_, _) => None
  }

  function IndexOf(n: Node): Option<Index> { if n.OpNode? && n.kind == INDEX then AtomsOf(n.children) else None }

  function WordsOf(ns: seq<Node>): Option<seq<string>> {
    if ns == [] then Some([])
    else
      match (WordOf(ns[0]), WordsOf(ns[1..]))
      case (Some(w), Some(rest)) => Some([w] + rest)
      case (_, _) => None
  }

  /** A tensor, under any role. */
  function TensorOf(n: Node): Option<Name> {
    if n.OpNode? && n.kind in {INPUT, OUTPUT, TENSOR} then
      match WordsOf(n.children)
      case Some(names) => Some(JoinNames(names))
      case None => None
    else None
  }

  /** The operator of a kind with one operand. */
  function Unary(k: Kind): Option<Oper> {
    match k
    case EXP => Some(Exp)
    case SQR => Some(Sqr)
    case SQRT => Some(Sqrt)
    case SIGMOID => Some(Sigmoid)
    case ERF => Some(GenericCall("erf"))
    case ABS => Some(GenericCall("abs"))
    case _ => None
  }

  /** With two. */
  function Binary(k: Kind): Option<Oper> {
    match k
    case ADD => Some(Add)
    case SUB => Some(Sub)
    case MUL => Some(Mul)
    case DIV => Some(Div)
    case MAX => Some(Max)
    case MIN => Some(Min)
    case MATMUL => Some(Matmul)
    case LE => Some(GenericBinary("<="))
    case _ => None
  }

  /** With one and an axis behind it. */
  function Along(k: Kind, axis: int): Option<Oper> {
    match k
    case RSUM => Some(ReduceSum(axis))
    case RMAX => Some(ReduceMax(axis))
    case RMIN => Some(ReduceMin(axis))
    case BCAST => Some(Broadcast(axis))
    case SQUEEZE => Some(Squeeze(axis))
    case UNSQUEEZE => Some(Unsqueeze(axis))
    case _ => None
  }

  /** What an operator node applies, and to which of its children, from the first up to the second number. */
  function Applied(k: Kind, kids: seq<Node>): Option<(Oper, nat, nat)> {
    var n := |kids|;
    if n == 1 && Unary(k).Some? then Some((Unary(k).value, 0, 1))
    else if n == 2 && Binary(k).Some? then Some((Binary(k).value, 0, 2))
    else if n == 2 && kids[1].NumNode? && Along(k, kids[1].value).Some? then Some((Along(k, kids[1].value).value, 0, 1))
    else if n == 2 && k == CAST && WordOf(kids[0]).Some? then Some((Cast(WordOf(kids[0]).value), 1, 2))
    else if n == 3 && k == CONCAT && kids[2].NumNode? then Some((Concat(kids[2].value), 0, 2))
    else if n == 4 && k == PERMUTE3 && kids[1].NumNode? && kids[2].NumNode? && kids[3].NumNode? then
      Some((Permute3(kids[1].value, kids[2].value, kids[3].value), 0, 1))
    else if (n == 5 && k == PERMUTE3) || (1 <= n <= 3 && k == TRANSPOSE) then Some((GenericCall("transpose"), 0, n))
    else None
  }

  /** The expression a node means, if it means one. */
  function ExprOf(n: Node): Option<Expr>
    decreases n, 1
  {
    match n
    case OpNode(LOAD, kids) =>
      if |kids| == 2 && TensorOf(kids[0]).Some? && IndexOf(kids[1]).Some? then
        Some(Load(TensorOf(kids[0]).value, IndexOf(kids[1]).value))
      else None
    case OpNode(k, kids) =>
      (match Applied(k, kids)
       case Some((op, from, upto)) =>
         if from <= upto <= |kids| && AllKnown(Decoded(kids)[from..upto]) then
           Some(Op(op, Values(Decoded(kids)[from..upto])))
         else None
       case None => None)
    case _ => Some(Const(WordOf(n).value))
  }

  /** What the children mean, each if it means an expression. */
  function Decoded(ns: seq<Node>): (r: seq<Option<Expr>>)
    ensures |r| == |ns| && forall k :: 0 <= k < |ns| ==> r[k] == ExprOf(ns[k])
    decreases ns, 0
  {
    if ns == [] then [] else [ExprOf(ns[0])] + Decoded(ns[1..])
  }

  predicate AllKnown<T>(es: seq<Option<T>>) { forall k :: 0 <= k < |es| ==> es[k].Some? }

  function Values<T>(es: seq<Option<T>>): seq<T>
    requires AllKnown(es)
  {
    seq(|es|, k requires 0 <= k < |es| => es[k].value)
  }

  /** The statement a node means; a sequence runs its children in order. */
  function StmtOf(n: Node): Option<Stmt>
    decreases n, 1
  {
    match n
    case OpNode(STORE, kids) =>
      if |kids| == 3 && TensorOf(kids[0]).Some? && ExprOf(kids[1]).Some? && IndexOf(kids[2]).Some? then
        Some(Store(TensorOf(kids[0]).value, ExprOf(kids[1]).value, IndexOf(kids[2]).value))
      else None
    case OpNode(SEQ, kids) => if AllKnown(DecodedStmts(kids)) then Some(Block(Values(DecodedStmts(kids)))) else None
    case _ => None
  }

  function DecodedStmts(ns: seq<Node>): (r: seq<Option<Stmt>>)
    ensures |r| == |ns| && forall k :: 0 <= k < |ns| ==> r[k] == StmtOf(ns[k])
    decreases ns, 0
  {
    if ns == [] then [] else [StmtOf(ns[0])] + DecodedStmts(ns[1..])
  }

  /** The value of a node. */
  function NodeValue<C, V>(M: Machine<C, V>, n: Node, env: Env, mem: Mem<C>): Option<V> {
    match ExprOf(n)
    case Some(e) => Some(Eval(M, e, env, mem))
    case None => None
  }

  /** The memory a node leaves. */
  function NodeRun<C, V>(M: Machine<C, V>, n: Node, env: Env, mem: Mem<C>): Option<Mem<C>> {
    match StmtOf(n)
    case Some(s) => Some(Exec(M, s, env, mem))
    case None => None
  }

  // ---------------------------------------------------------------------------------------------
  // What the back end understands

  predicate GoodWord(w: string) { IsWord(w) && UsualWord(w) }

  predicate GoodTensor(t: Name) {
    var parts := SplitNames(t);
    (forall k :: 0 <= k < |parts| ==> IsWord(parts[k])) && (|parts| == 1 ==> UsualWord(parts[0]))
  }

  predicate GoodAtom(a: Atom) {
    match a
    case Tile(x) => GoodWord(CleanTile(x))
    case Elem(x) => GoodWord(CleanTile(x))
    case TileOffset(_, _) => false
    case _ => true
  }

  predicate GoodIndex(ix: Index) { forall d :: 0 <= d < |ix| ==> GoodAtom(ix[d]) }

  /** A constant that is a decimal number. */
  predicate IsInt(e: Expr) {
    e.Const? && (AllDigits(e.text) || (e.text != [] && e.text[0] == '-' && AllDigits(e.text[1..])))
  }

  const TWO_OPERANDS: set<string> := {"+", "-", "*", "/", "max", "min", "@", "<="}
  const ONE_OPERAND: set<string> := {"exp", "sqr", "sqrt", "sigmoid", "erf", "abs"}

  /** Operators with as many operands as they take; a generic one is named like an operator of the back end. */
  predicate GoodOp(op: Oper, args: seq<Expr>) {
    match op
    case Add => |args| == 2
    case Sub => |args| == 2
    case Mul => |args| == 2
    case Div => |args| == 2
    case Max => |args| == 2
    case Min => |args| == 2
    case Matmul => |args| == 2
    case Concat(_) => |args| == 2
    case Cast(dtype) => |args| == 1 && GoodWord(dtype)
    case GenericBinary(o) => |args| == 2 && o in TWO_OPERANDS
    case GenericCall(f) =>
      || (|args| == 2 && f in TWO_OPERANDS) || (|args| == 1 && f in ONE_OPERAND)
      || (f == "transpose" && (1 <= |args| <= 3 || |args| == 5))
      || (f == "transpose" && |args| == 4 && IsInt(args[1]) && IsInt(args[2]) && IsInt(args[3]))
    case _ => |args| == 1
  }

  /** Expressions the back end understands: no range and no shifted tile, on good operators and words. */
  predicate GoodExpr(e: Expr) {
    match e
    case Load(t, ix) => GoodTensor(t) && GoodIndex(ix)
    case Const(text) => GoodWord(text)
    case Arange(_) => false
    case Op(op, args) => GoodOp(op, args) && forall k :: 0 <= k < |args| ==> GoodExpr(args[k])
  }

  predicate GoodStmt(s: Stmt) {
    match s
    case Store(t, v, ix) => GoodTensor(t) && GoodExpr(v) && GoodIndex(ix)
    case Loop(_, _, _, _, _) => false
    case Seq(l, r) => GoodStmt(l) && GoodStmt(r)
    case Block(ss) => forall k :: 0 <= k < |ss| ==> GoodStmt(ss[k])
  }

  /** How many trees a statement prints: a block prints those of its statements. */
  function Roots(s: Stmt): nat
    decreases s
  {
    match s
    case Block(ss) => AllRoots(ss)
    case _ => 1
  }

  function AllRoots(ss: seq<Stmt>): nat
    decreases ss
  {
    if ss == [] then 0 else Roots(ss[0]) + AllRoots(ss[1..])
  }

  // ---------------------------------------------------------------------------------------------
  // Kinds and their operators

  /** A number that tells the operators of the table apart. */
  function Code(s: string): nat { if s == [] then 0 else |s| + 16 * (s[0] as int) + 2048 * (s[|s| - 1] as int) }

  function Number(k: Kind): nat {
    match k
    case PLOOP => 231173
    case SLOOP => 231221
    case INPUT => 239253
    case OUTPUT => 239350
    case TENSOR => 235334
    case TILE => 208708
    case FULLTILE => 208488
    case INDEX => 247445
    case LOAD => 206532
    case STORE => 208693
    case SEQ => 233267
    case ADD => 88753
    case SUB => 92881
    case MUL => 86689
    case DIV => 97009
    case LE => 125890
    case MATMUL => 132097
    case EXP => 230995
    case SQR => 235315
    case SQRT => 239412
    case SIGMOID => 206647
    case ERF => 210515
    case CAST => 239156
    case ABS => 237075
    case MAX => 247507
    case MIN => 227027
    case RMAX => 247588
    case RMIN => 227108
    case RSUM => 225060
    case CONCAT => 239158
    case BCAST => 239141
    case DUMMY => 249413
    case ELEM => 224852
    case PERMUTE3 => 106248
    case TRANSPOSE => 208713
    case SQUEEZE => 208695
    case UNSQUEEZE => 208729
    case CONST_TILE => 208442
  }

  function KindOfNumber(c: nat): Option<Kind> {
    if c == 231173 then Some(PLOOP) else if c == 231221 then Some(SLOOP)
    else if c == 239253 then Some(INPUT) else if c == 239350 then Some(OUTPUT)
    else if c == 235334 then Some(TENSOR) else if c == 208708 then Some(TILE)
    else if c == 208488 then Some(FULLTILE) else if c == 247445 then Some(INDEX)
    else if c == 206532 then Some(LOAD) else if c == 208693 then Some(STORE)
    else if c == 233267 then Some(SEQ) else if c == 88753 then Some(ADD)
    else if c == 92881 then Some(SUB) else if c == 86689 then Some(MUL)
    else if c == 97009 then Some(DIV) else if c == 125890 then Some(LE)
    else if c == 132097 then Some(MATMUL) else if c == 230995 then Some(EXP)
    else if c == 235315 then Some(SQR) else if c == 239412 then Some(SQRT)
    else if c == 206647 then Some(SIGMOID) else if c == 210515 then Some(ERF)
    else if c == 239156 then Some(CAST) else if c == 237075 then Some(ABS)
    else if c == 247507 then Some(MAX) else if c == 227027 then Some(MIN)
    else if c == 247588 then Some(RMAX) else if c == 227108 then Some(RMIN)
    else if c == 225060 then Some(RSUM) else if c == 239158 then Some(CONCAT)
    else if c == 239141 then Some(BCAST) else if c == 249413 then Some(DUMMY)
    else if c == 224852 then Some(ELEM) else if c == 106248 then Some(PERMUTE3)
    else if c == 208713 then Some(TRANSPOSE) else if c == 208695 then Some(SQUEEZE)
    else if c == 208729 then Some(UNSQUEEZE) else if c == 208442 then Some(CONST_TILE)
    else None
  }

  lemma NumberTells(k: Kind)
    ensures KindOfNumber(Number(k)) == Some(k)
  {
  }

  lemma CodesOf0(k: Kind)
    requires k in {PLOOP, SLOOP, INPUT, OUTPUT, TENSOR, TILE, FULLTILE, INDEX}
    ensures Code(OpOf(k)) == Number(k) && IsWord(OpOf(k))
  {
  }

  lemma CodesOf1(k: Kind)
    requires k in {LOAD, STORE, SEQ, ADD, SUB, MUL, DIV, LE}
    ensures Code(OpOf(k)) == Number(k) && IsWord(OpOf(k))
  {
  }

  lemma CodesOf2(k: Kind)
    requires k in {MATMUL, EXP, SQR, SQRT, SIGMOID, ERF, CAST, ABS}
    ensures Code(OpOf(k)) == Number(k) && IsWord(OpOf(k))
  {
  }

  lemma CodesOf3(k: Kind)
    requires k in {MAX, MIN, RMAX, RMIN, RSUM, CONCAT, BCAST, DUMMY}
    ensures Code(OpOf(k)) == Number(k) && IsWord(OpOf(k))
  {
  }

  lemma CodesOf4(k: Kind)
    requires k in {ELEM, PERMUTE3, TRANSPOSE}
    ensures Code(OpOf(k)) == Number(k) && IsWord(OpOf(k))
  {
  }

  lemma CodesOf5(k: Kind)
    requires k in {SQUEEZE, UNSQUEEZE, CONST_TILE}
    ensures Code(OpOf(k)) == Number(k) && IsWord(OpOf(k))
  {
  }

  lemma CodeTells(k: Kind)
    ensures Code(OpOf(k)) == Number(k) && IsWord(OpOf(k))
  {
    if k in {PLOOP, SLOOP, INPUT, OUTPUT, TENSOR, TILE, FULLTILE, INDEX} {
      CodesOf0(k);
    } else if k in {LOAD, STORE, SEQ, ADD, SUB, MUL, DIV, LE} {
      CodesOf1(k);
    } else if k in {MATMUL, EXP, SQR, SQRT, SIGMOID, ERF, CAST, ABS} {
      CodesOf2(k);
    } else if k in {MAX, MIN, RMAX, RMIN, RSUM, CONCAT, BCAST, DUMMY} {
      CodesOf3(k);
    } else if k in {ELEM, PERMUTE3, TRANSPOSE} {
      CodesOf4(k);
    } else {
      CodesOf5(k);
    }
  }

  /** The table gives every operator its own kind. */
  lemma KindOfOwn(k: Kind)
    ensures KindOf(OpOf(k)) == Some(k)
  {
    NotPermute4(k);
    KindOfKnows(k);
    FindSound(KINDS, OpOf(k));
    var j := KindOf(OpOf(k)).value;
    CodeTells(k);
    CodeTells(j);
    NumberTells(k);
    NumberTells(j);
  }

  lemma NotPermute4(k: Kind)
    ensures OpOf(k) != "permute4"
  {
    CodeTells(k);
    assert Code("permute4") == 108296;
  }

  // ---------------------------------------------------------------------------------------------
  // The expression that comes back

  function ShownAtom(a: Atom): Atom {
    match a
    case Tile(x) => Tile(CleanTile(x))
    case Elem(x) => Elem(CleanTile(x))
    case _ => a
  }

  function ShownIndex(ix: Index): Index { seq(|ix|, d requires 0 <= d < |ix| => ShownAtom(ix[d])) }

  /** A generic operator that is named like a built-in one is that one. */
  function Named(op: Oper): Oper {
    match op
    case GenericBinary(o) => BuiltIn(o, op)
    case GenericCall(o) => BuiltIn(o, op)
    case _ => op
  }

  function BuiltIn(name: string, op: Oper): Oper {
    if name == "+" then Add
    else if name == "-" then Sub
    else if name == "*" then Mul
    else if name == "/" then Div
    else if name == "max" then Max
    else if name == "min" then Min
    else if name == "@" then Matmul
    else if name == "<=" then GenericBinary("<=")
    else if name == "exp" then Exp
    else if name == "sqr" then Sqr
    else if name == "sqrt" then Sqrt
    else if name == "sigmoid" then Sigmoid
    else op
  }

  /** The number a constant is read as. */
  function ReadInt(e: Expr): int { if e.Const? && NodeOfWord(e.text).NumNode? then NodeOfWord(e.text).value else 0 }

  /** Tile names come back without `v_`, and generic operators as the built-in ones they name. */
  function Shown(e: Expr): Expr
    decreases e, 1
  {
    match e
    case Load(t, ix) => Load(t, ShownIndex(ix))
    case Const(_) => e
    case Arange(_) => e
    case Op(op, args) =>
      if op == GenericCall("transpose") && |args| == 4 then
        Op(Permute3(ReadInt(args[1]), ReadInt(args[2]), ReadInt(args[3])), [Shown(args[0])])
      else Op(Named(op), ShownAll(args))
  }

  function ShownAll(args: seq<Expr>): (r: seq<Expr>)
    ensures |r| == |args| && forall k :: 0 <= k < |args| ==> r[k] == Shown(args[k])
    decreases args, 0
  {
    if args == [] then [] else [Shown(args[0])] + ShownAll(args[1..])
  }

  // ---------------------------------------------------------------------------------------------
  // Reading back

  /** A table that gives every operator its own kind, and the larger permutation that of the smaller one. */
  ghost predicate Table(kinds: Kinds) { (forall k :: kinds(OpOf(k)) == Some(k)) && kinds("permute4") == Some(PERMUTE3) }

  lemma OwnTableIsTable()
    ensures Table(KindOf)
  {
    forall k ensures KindOf(OpOf(k)) == Some(k) { KindOfOwn(k); }
  }

  ghost predicate Stands(kinds: Kinds, t: Tree, n: Node) { NodeOf(kinds, t) == Some(n) }
  ghost predicate AllStand(kinds: Kinds, ts: seq<Tree>, ns: seq<Node>) { NodesOf(kinds, ts) == Some(ns) }

  lemma {:induction false} AppendStands(kinds: Kinds, a: seq<Tree>, na: seq<Node>, b: seq<Tree>, nb: seq<Node>)
    requires AllStand(kinds, a, na) && AllStand(kinds, b, nb)
    ensures AllStand(kinds, a + b, na + nb)
  {
    if a == [] {
      assert a + b == b && na + nb == nb;
    } else {
      assert (a + b)[1..] == a[1..] + b;
      AppendStands(kinds, a[1..], na[1..], b, nb);
      assert na == [na[0]] + na[1..];
      assert [na[0]] + (na[1..] + nb) == na + nb;
    }
  }

  lemma OneStands(kinds: Kinds, t: Tree, n: Node)
    requires Stands(kinds, t, n)
    ensures AllStand(kinds, [t], [n])
  {
    assert NodesOf(kinds, [t][1..]) == Some([]) && [n] + [] == [n];
  }

  lemma FormStands(kinds: Kinds, k: Kind, items: seq<Tree>, ns: seq<Node>)
    requires Table(kinds) && AllStand(kinds, items, ns)
    ensures Stands(kinds, Form(OpOf(k), items), OpNode(k, ns))
  {
  }

  lemma WordBack(w: string)
    requires UsualWord(w)
    ensures WordOf(NodeOfWord(w)) == Some(w)
  {
  }

  lemma IntBack(v: int)
    ensures NodeOfWord(IntText(v)) == NumNode(v) && IsWord(IntText(v)) && UsualWord(IntText(v))
  {
    if v < 0 { MinusBack(-v); } else { NatBack(v); }
  }

  lemma NatBack(n: nat)
    ensures AllDigits(NatText(n)) && NodeOfWord(NatText(n)) == NumNode(n) && IsWord(NatText(n))
  {
    NatTextValue(n);
  }

  lemma MinusBack(n: nat)
    requires n > 0
    ensures NodeOfWord("-" + NatText(n)) == NumNode(0 - n) && IsWord("-" + NatText(n))
  {
    var w := "-" + NatText(n);
    NatBack(n);
    assert w[1..] == NatText(n) && w[0] == '-' && w[0] in w;
    forall c | c in w ensures !Sexps.IsSpace(c) && !IsPunct(c) && c != ';' {
      if c != '-' { assert c in NatText(n); }
    }
  }

  lemma WordFormBack(kinds: Kinds, k: Kind, w: string)
    requires Table(kinds)
    ensures Stands(kinds, Form(OpOf(k), [Word(w)]), OpNode(k, [NodeOfWord(w)]))
  {
    OneStands(kinds, Word(w), NodeOfWord(w));
    FormStands(kinds, k, [Word(w)], [NodeOfWord(w)]);
  }

  lemma ConstTileBack(kinds: Kinds, at: int, len: int)
    requires Table(kinds)
    ensures Stands(kinds, AtomTree(ConstTile(at, len)), OpNode(CONST_TILE, [NumNode(at), NumNode(len)]))
  {
    IntBack(at);
    IntBack(len);
    OneStands(kinds, Word(IntText(at)), NumNode(at));
    OneStands(kinds, Word(IntText(len)), NumNode(len));
    AppendStands(kinds, [Word(IntText(at))], [NumNode(at)], [Word(IntText(len))], [NumNode(len)]);
    assert [Word(IntText(at))] + [Word(IntText(len))] == [Word(IntText(at)), Word(IntText(len))];
    assert [NumNode(at)] + [NumNode(len)] == [NumNode(at), NumNode(len)];
    FormStands(kinds, CONST_TILE, [Word(IntText(at)), Word(IntText(len))], [NumNode(at), NumNode(len)]);
  }

  lemma AtomBack(kinds: Kinds, a: Atom) returns (n: Node)
    requires Table(kinds) && GoodAtom(a)
    ensures Stands(kinds, AtomTree(a), n) && AtomOf(n) == Some(ShownAtom(a))
  {
    match a
    case Tile(x) =>
      WordBack(CleanTile(x));
      WordFormBack(kinds, TILE, CleanTile(x));
      assert AtomTree(a) == Form(OpOf(TILE), [Word(CleanTile(x))]);
      n := OpNode(TILE, [NodeOfWord(CleanTile(x))]);
    case Elem(x) =>
      WordBack(CleanTile(x));
      WordFormBack(kinds, ELEM, CleanTile(x));
      assert AtomTree(a) == Form(OpOf(ELEM), [Word(CleanTile(x))]);
      n := OpNode(ELEM, [NodeOfWord(CleanTile(x))]);
    case ConstTile(at, len) =>
      ConstTileBack(kinds, at, len);
      n := OpNode(CONST_TILE, [NumNode(at), NumNode(len)]);
    case FullTile =>
      FullTileBack();
      n := FullTileNode;
  }

  lemma FullTileBack()
    ensures NodeOfWord("fulltile") == FullTileNode
  {
    assert "fulltile"[0] == 'f' && 'f' in "fulltile";
  }

  function AtomTrees(ix: Index): seq<Tree> { seq(|ix|, d requires 0 <= d < |ix| => AtomTree(ix[d])) }

  lemma {:induction false} AtomsBack(kinds: Kinds, ix: Index) returns (ns: seq<Node>)
    requires Table(kinds) && GoodIndex(ix)
    ensures AllStand(kinds, AtomTrees(ix), ns) && AtomsOf(ns) == Some(ShownIndex(ix))
  {
    ns := [];
    if ix != [] {
      var n := AtomBack(kinds, ix[0]);
      var rest := AtomsBack(kinds, ix[1..]);
      OneStands(kinds, AtomTree(ix[0]), n);
      AppendStands(kinds, [AtomTree(ix[0])], [n], AtomTrees(ix[1..]), rest);
      assert AtomTrees(ix) == [AtomTree(ix[0])] + AtomTrees(ix[1..]);
      ns := [n] + rest;
      AtomsJoin(n, rest, ix);
    } else {
      assert AtomTrees(ix) == [] && ShownIndex(ix) == [];
    }
  }

  lemma AtomsJoin(n: Node, rest: seq<Node>, ix: Index)
    requires ix != [] && AtomOf(n) == Some(ShownAtom(ix[0])) && AtomsOf(rest) == Some(ShownIndex(ix[1..]))
    ensures AtomsOf([n] + rest) == Some(ShownIndex(ix))
  {
    assert ([n] + rest)[1..] == rest && ShownIndex(ix) == [ShownAtom(ix[0])] + ShownIndex(ix[1..]);
  }

  lemma IndexBack(kinds: Kinds, ix: Index) returns (n: Node)
    requires Table(kinds) && GoodIndex(ix)
    ensures Stands(kinds, IndexTree(ix), n) && IndexOf(n) == Some(ShownIndex(ix))
  {
    var ns := AtomsBack(kinds, ix);
    FormStands(kinds, INDEX, AtomTrees(ix), ns);
    n := OpNode(INDEX, ns);
  }

  lemma {:induction false} NamesBack(parts: seq<string>)
    ensures WordsOf(VarNodes(parts)) == Some(parts)
  {
    if parts != [] {
      NamesBack(parts[1..]);
      assert VarNodes(parts)[1..] == VarNodes(parts[1..]);
      assert parts == [parts[0]] + parts[1..];
    }
  }

  lemma HeadKind(kinds: Kinds, h: string)
    requires Table(kinds) && IsTensorHead(h)
    ensures kinds(h).Some? && kinds(h).value in {INPUT, OUTPUT, TENSOR}
  {
    assert OpOf(INPUT) == "input" && OpOf(OUTPUT) == "output" && OpOf(TENSOR) == "tensor";
  }

  lemma NameNodesBack(parts: seq<string>)
    requires parts != [] && (|parts| == 1 ==> UsualWord(parts[0]))
    ensures WordsOf(NameNodes(parts)) == Some(parts)
  {
    if |parts| == 1 {
      WordBack(parts[0]);
      assert NameNodes(parts)[1..] == [] && [parts[0]] + [] == parts;
    } else {
      NamesBack(parts);
    }
  }

  lemma TensorBack(kinds: Kinds, role: Name -> string, t: Name) returns (n: Node)
    requires Table(kinds) && Roles(role) && GoodTensor(t)
    ensures Stands(kinds, TensorTree(role, t), n) && TensorOf(n) == Some(t)
  {
    var parts := SplitNames(t);
    JoinSplit(t);
    HeadKind(kinds, role(t));
    n := OpNode(kinds(role(t)).value, NameNodes(parts));
    NameNodesBack(parts);
  }

  // Operators.

  /** The nodes of operands. */
  ghost predicate MeanAll(ns: seq<Node>, args: seq<Expr>) {
    |ns| == |args| && forall k :: 0 <= k < |args| ==> Means(ns[k], args[k])
  }

  ghost predicate Means(n: Node, e: Expr) { ExprOf(n) == Some(Shown(e)) && (e.Const? ==> n == NodeOfWord(e.text)) }

  /** Operands in front, then numbers. */
  lemma NumbersBehind(k: Kind, op: Oper, args: seq<Expr>, ns: seq<Node>, numbers: seq<Node>, upto: nat)
    requires MeanAll(ns, args) && k != LOAD && upto <= |args|
    requires Applied(k, ns + numbers) == Some((op, 0, upto))
    ensures ExprOf(OpNode(k, ns + numbers)) == Some(Op(op, ShownAll(args[..upto])))
  {
    var kids := Decoded(ns + numbers)[0..upto];
    forall i | 0 <= i < upto ensures kids[i] == Some(Shown(args[i])) { assert Means(ns[i], args[i]); }
    assert Values(kids) == ShownAll(args[..upto]);
  }

  /** What an operator without numbers is read as. */
  function KindFor(op: Oper): Kind {
    match Named(op)
    case Add => ADD
    case Sub => SUB
    case Mul => MUL
    case Div => DIV
    case Max => MAX
    case Min => MIN
    case Matmul => MATMUL
    case Exp => EXP
    case Sqr => SQR
    case Sqrt => SQRT
    case Sigmoid => SIGMOID
    case ReduceSum(_) => RSUM
    case ReduceMax(_) => RMAX
    case ReduceMin(_) => RMIN
    case Broadcast(_) => BCAST
    case Squeeze(_) => SQUEEZE
    case Unsqueeze(_) => UNSQUEEZE
    case Concat(_) => CONCAT
    case Permute3(_, _, _) => PERMUTE3
    case Cast(_) => CAST
    case GenericBinary(_) => LE
    case GenericCall(f) => if f == "erf" then ERF else if f == "abs" then ABS else TRANSPOSE
  }

  predicate Generic(op: Oper) { op.GenericBinary? || op.GenericCall? }

  lemma HeadBuiltIn(op: Oper, n: nat)
    requires !Generic(op)
    ensures HeadOf(op, n) == OpOf(KindFor(op))
  {
  }

  lemma TwoOperandName(op: Oper, name: string)
    requires name in TWO_OPERANDS && (op == GenericBinary(name) || op == GenericCall(name))
    ensures OpOf(KindFor(op)) == name
  {
    if name == "+" {
    } else if name == "-" {
    } else if name == "*" {
    } else if name == "/" {
    } else if name == "max" {
    } else if name == "min" {
    } else if name == "@" {
    } else {
      assert name == "<=";
    }
  }

  lemma OneOperandName(name: string)
    requires name in ONE_OPERAND
    ensures OpOf(KindFor(GenericCall(name))) == name
  {
    assert |name| >= 3 && (name[0] == 'e' || name[0] == 's' || name[0] == 'a');
  }

  lemma GenericHead(op: Oper, args: seq<Expr>)
    requires GoodOp(op, args) && Generic(op) && (op == GenericCall("transpose") ==> |args| <= 3)
    ensures HeadOf(op, |args|) == OpOf(KindFor(op))
  {
    var name := if op.GenericBinary? then op.op else op.func;
    if name in TWO_OPERANDS {
      TwoOperandName(op, name);
    } else if name in ONE_OPERAND {
      OneOperandName(name);
    } else {
      TransposeHead();
    }
  }

  lemma TransposeHead()
    ensures KindFor(GenericCall("transpose")) == TRANSPOSE
  {
    assert |"transpose"| == 9;
  }

  function IntWords(xs: seq<int>): seq<Tree> { seq(|xs|, k requires 0 <= k < |xs| => Word(IntText(xs[k]))) }

  function IntNodes(xs: seq<int>): seq<Node> { seq(|xs|, k requires 0 <= k < |xs| => NumNode(xs[k])) }

  lemma {:induction false} IntsStand(kinds: Kinds, xs: seq<int>)
    ensures AllStand(kinds, IntWords(xs), IntNodes(xs))
  {
    if xs != [] {
      IntBack(xs[0]);
      IntsStand(kinds, xs[1..]);
      OneStands(kinds, Word(IntText(xs[0])), NumNode(xs[0]));
      AppendStands(kinds, [Word(IntText(xs[0]))], [NumNode(xs[0])], IntWords(xs[1..]), IntNodes(xs[1..]));
      assert IntWords(xs) == [Word(IntText(xs[0]))] + IntWords(xs[1..]);
      assert IntNodes(xs) == [NumNode(xs[0])] + IntNodes(xs[1..]);
    } else {
      assert IntWords(xs) == [] && IntNodes(xs) == [];
    }
  }

  /** The numbers printed behind the operands. */
  function Numbers(op: Oper): seq<int> {
    match op
    case ReduceSum(a) => [a]
    case ReduceMax(a) => [a]
    case ReduceMin(a) => [a]
    case Broadcast(a) => [a]
    case Concat(a) => [a]
    case Squeeze(a) => [a]
    case Unsqueeze(a) => [a]
    case Permute3(a, b, c) => [a, b, c]
    case _ => []
  }

  lemma AfterIsNumbers(op: Oper)
    ensures After(op) == IntWords(Numbers(op))
  {
  }

  lemma NumbersStand(kinds: Kinds, trees: seq<Tree>, ns: seq<Node>, xs: seq<int>, k: Kind)
    requires Table(kinds) && AllStand(kinds, trees, ns)
    ensures Stands(kinds, Form(OpOf(k), trees + IntWords(xs)), OpNode(k, ns + IntNodes(xs)))
  {
    IntsStand(kinds, xs);
    AppendStands(kinds, trees, ns, IntWords(xs), IntNodes(xs));
    FormStands(kinds, k, trees + IntWords(xs), ns + IntNodes(xs));
  }

  /** What is applied, for operators that are neither casts nor permutations by operands. */
  lemma AppliedBack(op: Oper, args: seq<Expr>, ns: seq<Node>)
    requires GoodOp(op, args) && |ns| == |args| && !op.Cast? && (op == GenericCall("transpose") ==> |args| <= 3)
    ensures KindFor(op) != LOAD && Applied(KindFor(op), ns + IntNodes(Numbers(op))) == Some((Named(op), 0, |args|))
  {
    var kids := ns + IntNodes(Numbers(op));
    assert |Numbers(op)| == 0 ==> kids == ns;
    assert |Numbers(op)| >= 1 ==> kids[|ns|] == NumNode(Numbers(op)[0]);
    if op.Permute3? {
      assert kids[1] == NumNode(op.d0) && kids[2] == NumNode(op.d1) && kids[3] == NumNode(op.d2);
    } else if Generic(op) {
      AppliedGeneric(op, args, ns);
    }
  }

  lemma AppliedGeneric(op: Oper, args: seq<Expr>, ns: seq<Node>)
    requires GoodOp(op, args) && |ns| == |args| && Generic(op) && (op == GenericCall("transpose") ==> |args| <= 3)
    ensures KindFor(op) != LOAD && Applied(KindFor(op), ns) == Some((Named(op), 0, |args|))
  {
    var name := if op.GenericBinary? then op.op else op.func;
    if |args| == 2 && name in TWO_OPERANDS {
      TwoOperandKind(op, name);
    } else if |args| == 1 && name in ONE_OPERAND {
      OneOperandKind(name);
    } else {
      TransposeHead();
      TransposeStays();
    }
  }

  lemma TwoOperandKind(op: Oper, name: string)
    requires name in TWO_OPERANDS && (op == GenericBinary(name) || op == GenericCall(name))
    ensures Binary(KindFor(op)) == Some(Named(op))
  {
    if name == "+" {
    } else if name == "-" {
    } else if name == "*" {
    } else if name == "/" {
    } else if name == "max" {
    } else if name == "min" {
    } else if name == "@" {
    } else {
      assert name == "<=";
    }
  }

  lemma OneOperandKind(name: string)
    requires name in ONE_OPERAND
    ensures Unary(KindFor(GenericCall(name))) == Some(Named(GenericCall(name)))
  {
    assert |name| >= 3 && (name[0] == 'e' || name[0] == 's' || name[0] == 'a');
  }

  lemma TransposeStays()
    ensures Named(GenericCall("transpose")) == GenericCall("transpose")
  {
    assert |"transpose"| == 9;
  }

  lemma PlainBack(kinds: Kinds, trees: seq<Tree>, op: Oper, args: seq<Expr>, ns: seq<Node>) returns (n: Node)
    requires Table(kinds) && GoodOp(op, args) && !op.Cast? && (op == GenericCall("transpose") ==> |args| <= 3)
    requires AllStand(kinds, trees, ns) && MeanAll(ns, args)
    ensures Stands(kinds, Form(HeadOf(op, |args|), trees + After(op)), n) &&
      ExprOf(n) == Some(Op(Named(op), ShownAll(args)))
  {
    if Generic(op) { GenericHead(op, args); } else { HeadBuiltIn(op, |args|); }
    AfterIsNumbers(op);
    NumbersStand(kinds, trees, ns, Numbers(op), KindFor(op));
    AppliedBack(op, args, ns);
    NumbersBehind(KindFor(op), Named(op), args, ns, IntNodes(Numbers(op)), |args|);
    assert args[..|args|] == args;
    n := OpNode(KindFor(op), ns + IntNodes(Numbers(op)));
  }

  lemma CastStands(kinds: Kinds, dtype: string, trees: seq<Tree>, ns: seq<Node>)
    requires Table(kinds) && AllStand(kinds, trees, ns)
    ensures Stands(kinds, Form("cast", [Word(dtype)] + trees), OpNode(CAST, [NodeOfWord(dtype)] + ns))
  {
    OneStands(kinds, Word(dtype), NodeOfWord(dtype));
    AppendStands(kinds, [Word(dtype)], [NodeOfWord(dtype)], trees, ns);
    FormStands(kinds, CAST, [Word(dtype)] + trees, [NodeOfWord(dtype)] + ns);
    assert OpOf(CAST) == "cast";
  }

  lemma CastApplied(w: Node, dtype: string, e: Expr, ns: seq<Node>)
    requires WordOf(w) == Some(dtype) && MeanAll(ns, [e])
    ensures ExprOf(OpNode(CAST, [w] + ns)) == Some(Op(Cast(dtype), ShownAll([e])))
  {
    var kids := [w] + ns;
    assert Applied(CAST, kids) == Some((Cast(dtype), 1, 2));
    assert kids[1] == ns[0] && Means(ns[0], [e][0]);
    var es := Decoded(kids)[1..2];
    assert es == [Some(Shown(e))];
    assert Values(es) == ShownAll([e]);
  }

  lemma HeadStands(kinds: Kinds, head: string, items: seq<Tree>, ns: seq<Node>, k: Kind)
    requires AllStand(kinds, items, ns) && kinds(head) == Some(k)
    ensures Stands(kinds, Form(head, items), OpNode(k, ns))
  {
  }

  /** Transposes print as permutations when they have four or five operands. */
  lemma PermutedHeads()
    ensures HeadOf(GenericCall("transpose"), 5) == "permute4" && HeadOf(GenericCall("transpose"), 4) == "permute3"
  {
    assert NatText(4) == "4" && NatText(3) == "3";
    assert "permute" + "4" == "permute4" && "permute" + "3" == "permute3";
  }

  lemma Permute4Applied(args: seq<Expr>, ns: seq<Node>)
    requires |args| == 5 && MeanAll(ns, args)
    ensures ExprOf(OpNode(PERMUTE3, ns)) == Some(Op(GenericCall("transpose"), ShownAll(args)))
  {
    assert ns + [] == ns && args[..5] == args;
    NumbersBehind(PERMUTE3, GenericCall("transpose"), args, ns, [], 5);
  }

  lemma ThreeInts(args: seq<Expr>, ns: seq<Node>)
    requires |args| == 4 && IsInt(args[1]) && IsInt(args[2]) && IsInt(args[3]) && MeanAll(ns, args)
    ensures forall k :: 1 <= k < 4 ==> ns[k] == NumNode(ReadInt(args[k]))
  {
    forall k | 1 <= k < 4 ensures ns[k] == NumNode(ReadInt(args[k])) { assert Means(ns[k], args[k]); }
  }

  lemma Permute3Applied(args: seq<Expr>, ns: seq<Node>)
    requires |args| == |ns| == 4 && ExprOf(ns[0]) == Some(Shown(args[0]))
    requires forall k :: 1 <= k < 4 ==> ns[k] == NumNode(ReadInt(args[k]))
    ensures ExprOf(OpNode(PERMUTE3, ns)) ==
      Some(Op(Permute3(ReadInt(args[1]), ReadInt(args[2]), ReadInt(args[3])), [Shown(args[0])]))
  {
    var op := Permute3(ReadInt(args[1]), ReadInt(args[2]), ReadInt(args[3]));
    assert Applied(PERMUTE3, ns) == Some((op, 0, 1));
    var es := Decoded(ns)[0..1];
    assert es == [Some(Shown(args[0]))];
    assert Values(es) == [Shown(args[0])];
  }

  lemma TransposeFour(kinds: Kinds, trees: seq<Tree>, ns: seq<Node>)
    requires Table(kinds) && AllStand(kinds, trees, ns)
    ensures Stands(kinds, Form("permute3", trees), OpNode(PERMUTE3, ns))
  {
    assert OpOf(PERMUTE3) == "permute3";
    HeadStands(kinds, "permute3", trees, ns, PERMUTE3);
  }

  lemma TransposeFourApplied(args: seq<Expr>, ns: seq<Node>)
    requires |args| == 4 && IsInt(args[1]) && IsInt(args[2]) && IsInt(args[3]) && MeanAll(ns, args)
    ensures ExprOf(OpNode(PERMUTE3, ns)) == Some(Shown(Op(GenericCall("transpose"), args)))
  {
    ThreeInts(args, ns);
    assert Means(ns[0], args[0]);
    Permute3Applied(args, ns);
  }

  lemma TransposeFive(kinds: Kinds, trees: seq<Tree>, args: seq<Expr>, ns: seq<Node>)
    requires Table(kinds) && |args| == 5 && AllStand(kinds, trees, ns) && MeanAll(ns, args)
    ensures Stands(kinds, Form("permute4", trees), OpNode(PERMUTE3, ns))
    ensures ExprOf(OpNode(PERMUTE3, ns)) == Some(Shown(Op(GenericCall("transpose"), args)))
  {
    HeadStands(kinds, "permute4", trees, ns, PERMUTE3);
    Permute4Applied(args, ns);
    TransposeStays();
  }

  lemma CastBack(kinds: Kinds, trees: seq<Tree>, dtype: string, e: Expr, ns: seq<Node>) returns (n: Node)
    requires Table(kinds) && GoodWord(dtype) && AllStand(kinds, trees, ns) && MeanAll(ns, [e])
    ensures Stands(kinds, Form("cast", [Word(dtype)] + trees), n) && ExprOf(n) == Some(Op(Cast(dtype), ShownAll([e])))
  {
    WordBack(dtype);
    CastStands(kinds, dtype, trees, ns);
    n := OpNode(CAST, [NodeOfWord(dtype)] + ns);
    CastApplied(NodeOfWord(dtype), dtype, e, ns);
  }

  /** The node of an operator on operands means the operator on what they mean. */
  ghost predicate OpMeans(kinds: Kinds, trees: seq<Tree>, op: Oper, args: seq<Expr>, n: Node) {
    && Stands(kinds, Form(HeadOf(op, |args|), Before(op) + trees + After(op)), n)
    && ExprOf(n) == Some(Shown(Op(op, args)))
  }

  lemma CastMeans(kinds: Kinds, trees: seq<Tree>, op: Oper, args: seq<Expr>, ns: seq<Node>) returns (n: Node)
    requires Table(kinds) && GoodOp(op, args) && op.Cast? && AllStand(kinds, trees, ns) && MeanAll(ns, args)
    ensures OpMeans(kinds, trees, op, args, n)
  {
    assert args == [args[0]] && Before(op) + trees + After(op) == [Word(op.dtype)] + trees;
    n := CastBack(kinds, trees, op.dtype, args[0], ns);
  }

  lemma TransposeMeans(kinds: Kinds, trees: seq<Tree>, op: Oper, args: seq<Expr>, ns: seq<Node>) returns (n: Node)
    requires Table(kinds) && GoodOp(op, args) && op == GenericCall("transpose") && |args| >= 4
    requires AllStand(kinds, trees, ns) && MeanAll(ns, args)
    ensures OpMeans(kinds, trees, op, args, n)
  {
    assert Before(op) + trees + After(op) == trees;
    PermutedHeads();
    n := OpNode(PERMUTE3, ns);
    NotByOperands();
    if |args| == 4 {
      TransposeFour(kinds, trees, ns);
      TransposeFourApplied(args, ns);
    } else {
      TransposeFive(kinds, trees, args, ns);
    }
  }

  lemma NotByOperands()
    ensures "transpose" !in ONE_OPERAND && "transpose" !in TWO_OPERANDS
  {
    assert |"transpose"| == 9;
  }

  lemma PlainMeans(kinds: Kinds, trees: seq<Tree>, op: Oper, args: seq<Expr>, ns: seq<Node>) returns (n: Node)
    requires Table(kinds) && GoodOp(op, args) && !op.Cast? && (op == GenericCall("transpose") ==> |args| <= 3)
    requires AllStand(kinds, trees, ns) && MeanAll(ns, args)
    ensures OpMeans(kinds, trees, op, args, n)
  {
    assert Before(op) + trees + After(op) == trees + After(op);
    n := PlainBack(kinds, trees, op, args, ns);
  }

  lemma OpBack(kinds: Kinds, trees: seq<Tree>, op: Oper, args: seq<Expr>, ns: seq<Node>) returns (n: Node)
    requires Table(kinds) && GoodOp(op, args) && AllStand(kinds, trees, ns) && MeanAll(ns, args)
    ensures OpMeans(kinds, trees, op, args, n)
  {
    if op.Cast? {
      n := CastMeans(kinds, trees, op, args, ns);
    } else if op == GenericCall("transpose") && |args| >= 4 {
      n := TransposeMeans(kinds, trees, op, args, ns);
    } else {
      n := PlainMeans(kinds, trees, op, args, ns);
    }
  }

  lemma LoadBack(kinds: Kinds, role: Name -> string, t: Name, ix: Index) returns (n: Node)
    requires Table(kinds) && Roles(role) && GoodTensor(t) && GoodIndex(ix)
    ensures Stands(kinds, ExprTree(role, Load(t, ix)), n) && ExprOf(n) == Some(Shown(Load(t, ix)))
  {
    var a := TensorBack(kinds, role, t);
    var b := IndexBack(kinds, ix);
    TwoStand(kinds, LOAD, TensorTree(role, t), a, IndexTree(ix), b);
    n := OpNode(LOAD, [a, b]);
  }

  lemma TwoStand(kinds: Kinds, k: Kind, x: Tree, a: Node, y: Tree, b: Node)
    requires Table(kinds) && Stands(kinds, x, a) && Stands(kinds, y, b)
    ensures Stands(kinds, Form(OpOf(k), [x, y]), OpNode(k, [a, b]))
  {
    OneStands(kinds, x, a);
    OneStands(kinds, y, b);
    AppendStands(kinds, [x], [a], [y], [b]);
    assert [x] + [y] == [x, y] && [a] + [b] == [a, b];
    FormStands(kinds, k, [x, y], [a, b]);
  }

  /** The node of a printed expression means the expression. */
  lemma {:induction false} ExprBack(kinds: Kinds, role: Name -> string, e: Expr) returns (n: Node)
    requires Table(kinds) && Roles(role) && GoodExpr(e)
    ensures Stands(kinds, ExprTree(role, e), n) && Means(n, e)
    decreases e, 1
  {
    match e
    case Load(t, ix) => n := LoadBack(kinds, role, t, ix);
    case Const(text) =>
      WordBack(text);
      n := NodeOfWord(text);
    case Op(op, args) =>
      var ns := ExprsBack(kinds, role, args);
      n := OpBack(kinds, ExprTrees(role, args), op, args, ns);
  }

  lemma {:induction false} ExprsBack(kinds: Kinds, role: Name -> string, args: seq<Expr>) returns (ns: seq<Node>)
    requires Table(kinds) && Roles(role) && forall k :: 0 <= k < |args| ==> GoodExpr(args[k])
    ensures AllStand(kinds, ExprTrees(role, args), ns) && MeanAll(ns, args)
    decreases args, 0
  {
    ns := [];
    if args != [] {
      var n := ExprBack(kinds, role, args[0]);
      var rest := ExprsBack(kinds, role, args[1..]);
      assert ExprTrees(role, args)[1..] == ExprTrees(role, args[1..]);
      ns := [n] + rest;
      forall k | 0 <= k < |args| ensures Means(ns[k], args[k]) {
        if k > 0 { assert ns[k] == rest[k - 1] && args[k] == args[1..][k - 1]; }
      }
    }
  }

  // Statements.

  /** The statements that come back, one for every tree that is printed. */
  function Flat(s: Stmt): seq<Stmt>
    decreases s, 1
  {
    match s
    case Store(t, v, ix) => [Store(t, Shown(v), ShownIndex(ix))]
    case Loop(_, _, _, _, _) => [s]
    case Seq(l, r) => [Block(Flat(l) + Flat(r))]
    case Block(ss) => FlatAll(ss)
  }

  function FlatAll(ss: seq<Stmt>): seq<Stmt>
    decreases ss, 0
  {
    if ss == [] then [] else Flat(ss[0]) + FlatAll(ss[1..])
  }

  /** Nodes that mean statements. */
  ghost predicate MeanStmts(ns: seq<Node>, ss: seq<Stmt>) {
    |ns| == |ss| && forall k :: 0 <= k < |ns| ==> MeansStmt(ns[k], ss[k])
  }

  ghost predicate MeansStmt(n: Node, s: Stmt) { StmtOf(n) == Some(s) }

  lemma SeqMeans(ns: seq<Node>, ss: seq<Stmt>)
    requires MeanStmts(ns, ss)
    ensures StmtOf(OpNode(SEQ, ns)) == Some(Block(ss))
  {
    assert forall k :: 0 <= k < |ns| ==> MeansStmt(ns[k], ss[k]);
    assert Values(DecodedStmts(ns)) == ss;
  }

  /** The nodes of what a statement prints. */
  ghost predicate StmtMeans(kinds: Kinds, role: Name -> string, s: Stmt, ns: seq<Node>) {
    AllStand(kinds, StmtTrees(role, s), ns) && MeanStmts(ns, Flat(s)) && |ns| == Roots(s)
  }

  lemma ThreeStand(kinds: Kinds, k: Kind, x: Tree, a: Node, y: Tree, b: Node, z: Tree, c: Node)
    requires Table(kinds) && Stands(kinds, x, a) && Stands(kinds, y, b) && Stands(kinds, z, c)
    ensures Stands(kinds, Form(OpOf(k), [x, y, z]), OpNode(k, [a, b, c]))
  {
    OneStands(kinds, x, a);
    OneStands(kinds, y, b);
    OneStands(kinds, z, c);
    AppendStands(kinds, [x], [a], [y], [b]);
    AppendStands(kinds, [x] + [y], [a] + [b], [z], [c]);
    assert [x] + [y] + [z] == [x, y, z] && [a] + [b] + [c] == [a, b, c];
    FormStands(kinds, k, [x, y, z], [a, b, c]);
  }

  lemma StoreBack(kinds: Kinds, role: Name -> string, t: Name, v: Expr, ix: Index) returns (ns: seq<Node>)
    requires Table(kinds) && Roles(role) && GoodTensor(t) && GoodExpr(v) && GoodIndex(ix)
    ensures StmtMeans(kinds, role, Store(t, v, ix), ns)
  {
    var a := TensorBack(kinds, role, t);
    var b := ExprBack(kinds, role, v);
    var c := IndexBack(kinds, ix);
    ThreeStand(kinds, STORE, TensorTree(role, t), a, ExprTree(role, v), b, IndexTree(ix), c);
    ns := [OpNode(STORE, [a, b, c])];
    StoreStands(kinds, role, t, v, ix, OpNode(STORE, [a, b, c]));
    assert MeansStmt(OpNode(STORE, [a, b, c]), Store(t, Shown(v), ShownIndex(ix)));
  }

  lemma StoreStands(kinds: Kinds, role: Name -> string, t: Name, v: Expr, ix: Index, n: Node)
    requires Stands(kinds, Form(OpOf(STORE), [TensorTree(role, t), ExprTree(role, v), IndexTree(ix)]), n)
    ensures AllStand(kinds, StmtTrees(role, Store(t, v, ix)), [n])
  {
    OneStands(kinds, Form(OpOf(STORE), [TensorTree(role, t), ExprTree(role, v), IndexTree(ix)]), n);
    assert OpOf(STORE) == "store";
  }

  lemma SeqStands(kinds: Kinds, role: Name -> string, l: Stmt, a: seq<Node>, r: Stmt, b: seq<Node>)
    requires Table(kinds) && StmtMeans(kinds, role, l, a) && StmtMeans(kinds, role, r, b)
    ensures StmtMeans(kinds, role, Seq(l, r), [OpNode(SEQ, a + b)])
  {
    AppendStands(kinds, StmtTrees(role, l), a, StmtTrees(role, r), b);
    FormStands(kinds, SEQ, StmtTrees(role, l) + StmtTrees(role, r), a + b);
    OneStands(kinds, Form(OpOf(SEQ), StmtTrees(role, l) + StmtTrees(role, r)), OpNode(SEQ, a + b));
    SeqMeans(a + b, Flat(l) + Flat(r));
    assert MeansStmt(OpNode(SEQ, a + b), Block(Flat(l) + Flat(r)));
    assert OpOf(SEQ) == "seq";
  }

  lemma {:induction false} StmtBack(kinds: Kinds, role: Name -> string, s: Stmt) returns (ns: seq<Node>)
    requires Table(kinds) && Roles(role) && GoodStmt(s)
    ensures StmtMeans(kinds, role, s, ns)
    decreases s, 1
  {
    match s
    case Store(t, v, ix) => ns := StoreBack(kinds, role, t, v, ix);
    case Seq(l, r) =>
      var a := StmtBack(kinds, role, l);
      var b := StmtBack(kinds, role, r);
      SeqStands(kinds, role, l, a, r, b);
      ns := [OpNode(SEQ, a + b)];
    case Block(ss) => ns := StmtsBack(kinds, role, ss);
  }

  lemma {:induction false} StmtsBack(kinds: Kinds, role: Name -> string, ss: seq<Stmt>) returns (ns: seq<Node>)
    requires Table(kinds) && Roles(role) && forall k :: 0 <= k < |ss| ==> GoodStmt(ss[k])
    ensures AllStand(kinds, AllTrees(role, ss), ns) && MeanStmts(ns, FlatAll(ss)) && |ns| == AllRoots(ss)
    decreases ss, 0
  {
    ns := [];
    if ss != [] {
      var first := StmtBack(kinds, role, ss[0]);
      var rest := StmtsBack(kinds, role, ss[1..]);
      AppendStands(kinds, StmtTrees(role, ss[0]), first, AllTrees(role, ss[1..]), rest);
      ns := first + rest;
    }
  }

  // ---------------------------------------------------------------------------------------------
  // The same value and the same memory

  function AtomNames(ix: Index): set<Name> {
    set d | 0 <= d < |ix| && (ix[d].Tile? || ix[d].Elem?) :: ix[d].name
  }

  function AxisNames(e: Expr): set<Name> {
    match e
    case Load(_, ix) => AtomNames(ix)
    case Op(_, args) => set a, n | a in args && n in AxisNames(a) :: n
    case _ => {}
  }

  function StmtAxes(s: Stmt): set<Name> {
    match s
    case Store(_, v, ix) => AxisNames(v) + AtomNames(ix)
    case Loop(_, _, _, _, b) => StmtAxes(b)
    case Seq(l, r) => StmtAxes(l) + StmtAxes(r)
    case Block(ss) => set c, n | c in ss && n in StmtAxes(c) :: n
  }

  /** The variables stand for the same under the names they are printed with. */
  ghost predicate SameAxes(names: set<Name>, env: Env, env': Env) {
    forall n :: n in names ==> Lookup(env', CleanTile(n)) == Lookup(env, n)
  }

  /** The machine takes generic operators for the built-in ones they name, as the back end does: also a
      transpose with three numbers behind its operand for a permutation. */
  ghost predicate KnowsNames<C, V(!new)>(M: Machine<C, V>) {
    && (forall op, vs :: M.apply(Named(op), vs) == M.apply(op, vs))
    && forall v, a, b, c :: M.apply(Permute3(a, b, c), [v]) ==
         M.apply(GenericCall("transpose"), [v, M.lit(IntText(a)), M.lit(IntText(b)), M.lit(IntText(c))])
  }

  lemma IndexSame(ix: Index, env: Env, env': Env)
    requires GoodIndex(ix) && SameAxes(AtomNames(ix), env, env')
    ensures ResolveAll(ShownIndex(ix), env') == ResolveAll(ix, env)
  {
    forall d | 0 <= d < |ix| ensures Resolve(ShownAtom(ix[d]), env') == Resolve(ix[d], env) {
      if ix[d].Tile? || ix[d].Elem? { assert ix[d].name in AtomNames(ix); }
      assert GoodAtom(ix[d]);
    }
  }

  lemma IntIs(e: Expr)
    requires IsInt(e) && UsualWord(e.text)
    ensures e == Const(IntText(ReadInt(e)))
  {
  }

  /** The operands of a transpose, and those of the permutation. */
  lemma TransposeOperands<C, V>(M: Machine<C, V>, args: seq<Expr>, a: string, b: string, c: string, env: Env,
      mem: Mem<C>)
    requires |args| == 4 && args[1] == Const(a) && args[2] == Const(b) && args[3] == Const(c)
    ensures EvalAll(M, args, env, mem) == [Eval(M, args[0], env, mem), M.lit(a), M.lit(b), M.lit(c)]
  {
  }

  lemma TransposeSame<C, V(!new)>(M: Machine<C, V>, args: seq<Expr>, a: int, b: int, c: int, env: Env, env': Env,
      mem: Mem<C>)
    requires KnowsNames(M) && |args| == 4
    requires args[1] == Const(IntText(a)) && args[2] == Const(IntText(b)) && args[3] == Const(IntText(c))
    requires Eval(M, Shown(args[0]), env', mem) == Eval(M, args[0], env, mem)
    ensures Eval(M, Op(Permute3(a, b, c), [Shown(args[0])]), env', mem) ==
      Eval(M, Op(GenericCall("transpose"), args), env, mem)
  {
    var v := Eval(M, args[0], env, mem);
    assert EvalAll(M, [Shown(args[0])], env', mem) == [v];
    TransposeOperands(M, args, IntText(a), IntText(b), IntText(c), env, mem);
  }

  lemma TransposeShown<C, V(!new)>(M: Machine<C, V>, args: seq<Expr>, env: Env, env': Env, mem: Mem<C>)
    requires KnowsNames(M) && |args| == 4 && GoodExpr(Op(GenericCall("transpose"), args))
    requires Eval(M, Shown(args[0]), env', mem) == Eval(M, args[0], env, mem)
    ensures Eval(M, Shown(Op(GenericCall("transpose"), args)), env', mem) ==
      Eval(M, Op(GenericCall("transpose"), args), env, mem)
  {
    NotByOperands();
    assert GoodExpr(args[1]) && GoodExpr(args[2]) && GoodExpr(args[3]);
    IntIs(args[1]);
    IntIs(args[2]);
    IntIs(args[3]);
    TransposeSame(M, args, ReadInt(args[1]), ReadInt(args[2]), ReadInt(args[3]), env, env', mem);
  }

  lemma {:induction false} ShownSame<C, V(!new)>(M: Machine<C, V>, e: Expr, env: Env, env': Env, mem: Mem<C>)
    requires KnowsNames(M) && GoodExpr(e) && SameAxes(AxisNames(e), env, env')
    ensures Eval(M, Shown(e), env', mem) == Eval(M, e, env, mem)
  {
    match e
    case Load(_, ix) => IndexSame(ix, env, env');
    case Const(_) =>
    case Op(op, args) =>
      forall k | 0 <= k < |args| ensures Eval(M, Shown(args[k]), env', mem) == Eval(M, args[k], env, mem) {
        forall n | n in AxisNames(args[k]) ensures n in AxisNames(e) { assert args[k] in args; }
        ShownSame(M, args[k], env, env', mem);
      }
      if op == GenericCall("transpose") && |args| == 4 {
        TransposeShown(M, args, env, env', mem);
      } else {
        assert EvalAll(M, ShownAll(args), env', mem) == EvalAll(M, args, env, mem);
      }
  }

  lemma {:induction false} ExecAppend<C, V>(M: Machine<C, V>, a: seq<Stmt>, b: seq<Stmt>, env: Env, mem: Mem<C>)
    ensures ExecAll(M, a + b, env, mem) == ExecAll(M, b, env, ExecAll(M, a, env, mem))
  {
    if a == [] {
      assert a + b == b;
    } else {
      assert (a + b)[1..] == a[1..] + b;
      ExecAppend(M, a[1..], b, env, Exec(M, a[0], env, mem));
    }
  }

  lemma ExecOne<C, V>(M: Machine<C, V>, s: Stmt, env: Env, mem: Mem<C>)
    ensures ExecAll(M, [s], env, mem) == Exec(M, s, env, mem)
  {
    assert ExecAll(M, [s][1..], env, Exec(M, s, env, mem)) == Exec(M, s, env, mem);
  }

  lemma {:induction false} FlatSame<C, V(!new)>(M: Machine<C, V>, s: Stmt, env: Env, env': Env, mem: Mem<C>)
    requires KnowsNames(M) && GoodStmt(s) && SameAxes(StmtAxes(s), env, env')
    ensures ExecAll(M, Flat(s), env', mem) == Exec(M, s, env, mem)
    decreases s, 1
  {
    match s
    case Store(t, v, ix) =>
      ShownSame(M, v, env, env', mem);
      IndexSame(ix, env, env');
      ExecOne(M, Store(t, Shown(v), ShownIndex(ix)), env', mem);
    case Seq(l, r) =>
      FlatSame(M, l, env, env', mem);
      FlatSame(M, r, env, env', Exec(M, l, env, mem));
      ExecAppend(M, Flat(l), Flat(r), env', mem);
      ExecOne(M, Block(Flat(l) + Flat(r)), env', mem);
    case Block(ss) =>
      forall c, n | c in ss && n in StmtAxes(c) ensures n in StmtAxes(s) {}
      FlatAllSame(M, ss, env, env', mem);
  }

  lemma {:induction false} FlatAllSame<C, V(!new)>(M: Machine<C, V>, ss: seq<Stmt>, env: Env, env': Env, mem: Mem<C>)
    requires KnowsNames(M) && (forall k :: 0 <= k < |ss| ==> GoodStmt(ss[k]))
    requires forall c, n :: c in ss && n in StmtAxes(c) ==> Lookup(env', CleanTile(n)) == Lookup(env, n)
    ensures ExecAll(M, FlatAll(ss), env', mem) == ExecAll(M, ss, env, mem)
    decreases ss, 0
  {
    if ss != [] {
      assert ss[0] in ss;
      FlatSame(M, ss[0], env, env', mem);
      FlatAllSame(M, ss[1..], env, env', Exec(M, ss[0], env, mem));
      ExecAppend(M, Flat(ss[0]), FlatAll(ss[1..]), env', mem);
    }
  }

  // ---------------------------------------------------------------------------------------------
  // What is printed is well spelled

  lemma OperatorIsWord(k: Kind)
    ensures IsWord(OpOf(k))
  {
    CodeTells(k);
  }

  lemma NoHeadIn(kinds: Kinds, k: Kind)
    requires Table(kinds) && k != INPUT && k != OUTPUT && k != TENSOR
    ensures !IsTensorHead(OpOf(k))
  {
    assert OpOf(INPUT) == "input" && OpOf(OUTPUT) == "output" && OpOf(TENSOR) == "tensor";
    assert kinds(OpOf(k)) == Some(k);
  }

  lemma OperatorIsNoHead(k: Kind)
    requires k != INPUT && k != OUTPUT && k != TENSOR
    ensures !IsTensorHead(OpOf(k))
  {
    OwnTableIsTable();
    NoHeadIn(KindOf, k);
  }

  lemma IntSpelled(v: int)
    ensures WellSpelled(Word(IntText(v)))
  {
    IntBack(v);
  }

  lemma AtomSpelled(a: Atom)
    requires GoodAtom(a)
    ensures WellSpelled(AtomTree(a))
  {
    OperatorIsWord(TILE);
    OperatorIsWord(ELEM);
    OperatorIsWord(CONST_TILE);
    OperatorIsWord(FULLTILE);
    OperatorIsNoHead(TILE);
    OperatorIsNoHead(ELEM);
    OperatorIsNoHead(CONST_TILE);
    match a
    case Tile(x) => assert AtomTree(a) == Form(OpOf(TILE), [Word(CleanTile(x))]);
    case Elem(x) => assert AtomTree(a) == Form(OpOf(ELEM), [Word(CleanTile(x))]);
    case ConstTile(at, len) =>
      IntSpelled(at);
      IntSpelled(len);
      assert AtomTree(a) == Form(OpOf(CONST_TILE), [Word(IntText(at)), Word(IntText(len))]);
    case FullTile => assert AtomTree(a) == Word(OpOf(FULLTILE));
  }

  lemma IndexSpelled(ix: Index)
    requires GoodIndex(ix)
    ensures WellSpelled(IndexTree(ix))
  {
    OperatorIsWord(INDEX);
    OperatorIsNoHead(INDEX);
    forall d | 0 <= d < |ix| ensures WellSpelled(AtomTrees(ix)[d]) { AtomSpelled(ix[d]); }
    assert IndexTree(ix) == Form(OpOf(INDEX), AtomTrees(ix));
  }

  predicate SpelledAll(ts: seq<Tree>) { forall k :: 0 <= k < |ts| ==> WellSpelled(ts[k]) }

  lemma {:induction false} NumbersSpelled(xs: seq<int>)
    ensures SpelledAll(IntWords(xs))
  {
    forall k | 0 <= k < |xs| ensures WellSpelled(IntWords(xs)[k]) { IntSpelled(xs[k]); }
  }

  lemma HeadSpelled(op: Oper, args: seq<Expr>)
    requires GoodOp(op, args)
    ensures IsWord(HeadOf(op, |args|)) && !IsTensorHead(HeadOf(op, |args|))
  {
    if op == GenericCall("transpose") && |args| >= 4 {
      NotByOperands();
      PermutedHeads();
      PermutationIsWord();
    } else {
      if Generic(op) { GenericHead(op, args); } else { HeadBuiltIn(op, |args|); }
      OperatorIsWord(KindFor(op));
      OperatorIsNoHead(KindFor(op));
    }
  }

  lemma PermutationIsWord()
    ensures IsWord("permute3") && IsWord("permute4") && !IsTensorHead("permute3") && !IsTensorHead("permute4")
  {
    OperatorIsWord(PERMUTE3);
    assert OpOf(PERMUTE3) == "permute3";
    assert "permute4" == "permute3"[..7] + "4";
    assert |"permute3"| == 8 && |"permute4"| == 8;
  }

  lemma FormSpelled(head: string, before: seq<Tree>, items: seq<Tree>, after: seq<Tree>)
    requires IsWord(head) && !IsTensorHead(head) && SpelledAll(before) && SpelledAll(items) && SpelledAll(after)
    ensures WellSpelled(Form(head, before + items + after))
  {
  }

  lemma {:induction false} ExprSpelled(role: Name -> string, e: Expr)
    requires Roles(role) && GoodExpr(e)
    ensures WellSpelled(ExprTree(role, e))
    decreases e, 1
  {
    match e
    case Load(t, ix) =>
      OperatorIsWord(LOAD);
      OperatorIsNoHead(LOAD);
      IndexSpelled(ix);
      assert OpOf(LOAD) == "load";
    case Const(_) =>
    case Op(op, args) =>
      HeadSpelled(op, args);
      AfterIsNumbers(op);
      NumbersSpelled(Numbers(op));
      ExprsSpelled(role, args);
      FormSpelled(HeadOf(op, |args|), Before(op), ExprTrees(role, args), After(op));
  }

  lemma {:induction false} ExprsSpelled(role: Name -> string, args: seq<Expr>)
    requires Roles(role) && forall k :: 0 <= k < |args| ==> GoodExpr(args[k])
    ensures SpelledAll(ExprTrees(role, args))
    decreases args, 0
  {
    if args != [] {
      ExprSpelled(role, args[0]);
      ExprsSpelled(role, args[1..]);
      forall k | 0 <= k < |args| ensures WellSpelled(ExprTrees(role, args)[k]) {
        if k > 0 { assert ExprTrees(role, args)[k] == ExprTrees(role, args[1..])[k - 1]; }
      }
    }
  }

  lemma {:induction false} StmtSpelled(role: Name -> string, s: Stmt)
    requires Roles(role) && GoodStmt(s)
    ensures SpelledForest(StmtTrees(role, s)) && |StmtTrees(role, s)| == Roots(s)
    decreases s, 1
  {
    match s
    case Store(t, v, ix) =>
      OperatorIsWord(STORE);
      OperatorIsNoHead(STORE);
      ExprSpelled(role, v);
      IndexSpelled(ix);
      assert OpOf(STORE) == "store";
    case Seq(l, r) =>
      OperatorIsWord(SEQ);
      OperatorIsNoHead(SEQ);
      StmtSpelled(role, l);
      StmtSpelled(role, r);
      SpelledAppend(StmtTrees(role, l), StmtTrees(role, r));
      assert OpOf(SEQ) == "seq";
    case Block(ss) => AllSpelled(role, ss);
  }

  lemma {:induction false} AllSpelled(role: Name -> string, ss: seq<Stmt>)
    requires Roles(role) && forall k :: 0 <= k < |ss| ==> GoodStmt(ss[k])
    ensures SpelledForest(AllTrees(role, ss)) && |AllTrees(role, ss)| == AllRoots(ss)
    decreases ss, 0
  {
    if ss != [] {
      StmtSpelled(role, ss[0]);
      AllSpelled(role, ss[1..]);
      SpelledAppend(StmtTrees(role, ss[0]), AllTrees(role, ss[1..]));
    }
  }

  // ---------------------------------------------------------------------------------------------
  // The main results

  /** Printing an expression at any level and parsing the text gives a node whose value is the expression's,
      in every memory of every machine that knows the names of operators. */
  lemma PrintedExpressionMeans<C, V(!new)>(M: Machine<C, V>, role: Name -> string, e: Expr, level: int, env: Env,
      env': Env, mem: Mem<C>)
    requires Roles(role) && GoodExpr(e) && KnowsNames(M) && SameAxes(AxisNames(e), env, env')
    ensures var r := ParseText(KindOf, ExprText(role, e, level));
      r.Ok? && NodeValue(M, r.value, env', mem) == Some(Eval(M, e, env, mem))
  {
    OwnTableIsTable();
    ExprSpelled(role, e);
    var n := ExprBack(KindOf, role, e);
    PrintedExpressionParses(KindOf, role, e, level);
    ShownSame(M, e, env, env', mem);
  }

  /** Printing a statement at any level and parsing the text gives a node that leaves the memory the
      statement leaves. */
  lemma PrintedStatementMeans<C, V(!new)>(M: Machine<C, V>, role: Name -> string, s: Stmt, level: int, env: Env,
      env': Env, mem: Mem<C>)
    requires Roles(role) && GoodStmt(s) && Roots(s) == 1 && KnowsNames(M) && SameAxes(StmtAxes(s), env, env')
    ensures var r := ParseText(KindOf, StmtText(role, s, level));
      r.Ok? && NodeRun(M, r.value, env', mem) == Some(Exec(M, s, env, mem))
  {
    OwnTableIsTable();
    StmtSpelled(role, s);
    var ns := StmtBack(KindOf, role, s);
    OneRoot(KindOf, role, s, ns);
    PrintedStatementParses(KindOf, role, s, level);
    FlatSame(M, s, env, env', mem);
    ExecOne(M, Flat(s)[0], env', mem);
    assert Flat(s) == [Flat(s)[0]];
  }

  lemma OneRoot(kinds: Kinds, role: Name -> string, s: Stmt, ns: seq<Node>)
    requires StmtMeans(kinds, role, s, ns) && |ns| == 1 && |StmtTrees(role, s)| == 1
    ensures |Flat(s)| == 1 && StmtOf(ns[0]) == Some(Flat(s)[0]) && Stands(kinds, StmtTrees(role, s)[0], ns[0])
  {
    assert MeansStmt(ns[0], Flat(s)[0]) && NodesOf(kinds, StmtTrees(role, s)[1..]) == Some([]);
  }

  /** What the back end understands is what its parser reads, with operators on as many operands as they
      take. */
  lemma {:induction false} GoodIsReadable(e: Expr)
    requires GoodExpr(e)
    ensures ReadableExpr(KindOf, e)
  {
    OwnTableIsTable();
    var role := (n: Name) => "tensor";
    var n := ExprBack(KindOf, role, e);
    KindOfIsOwnTable();
    ExprReadable(KindOf, role, e);
  }
}
